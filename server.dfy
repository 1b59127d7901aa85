/**
 * The patching server: it reads its configuration, hashes the patcher the
 * configuration points at, indexes the content directory, keeps the index
 * current from the watchers' queued actions, and answers `/` with the
 * manifest and `/reload` by rebuilding everything.
 *
 * Threads are not modelled: a watcher notification only queues an action
 * (`OnEvent`), and the refresh worker (`RefreshRunnable`) is a method that
 * runs the queue to the end, or until an action raises, which ends the
 * server process.  Files, the patcher download and the scan retries are
 * inputs.
 */
module PatchingServer {
  import opened Wrappers
  import opened Hex
  import opened Manifest
  import opened FileTree
  import opened ContentIndex

  /** The config file's `patcher_url` and `content_end_point`. */
  datatype Config = Config(patcherUrl: string, contentEndPoint: string)

  /** One try of the initial scan: the tree as enumerated, and the files as they are then read. */
  datatype ScanAttempt = ScanAttempt(tree: Node, disk: Disk)

  /** The `patcher` member: the URL, the digest of what the URL served, and "md5". */
  function PatcherOf(url: string, bytes: seq<Byte>, md5: HashFn): (p: PatcherInfo)
    ensures p.url == url && p.alg == Some(Md5)
    ensures p.hash.Some? && ParseHex(p.hash.value) == Some(md5(bytes))
  {
    ParseHexRoundTrip(md5(bytes));
    PatcherInfo(url, Some(DigestHex(md5(bytes))), Some(Md5))
  }

  /** The `files` members in order, each name with its value. */
  function Pairs(keys: seq<string>, entries: map<string, Entry>): seq<(string, Entry)>
  {
    if keys == [] then []
    else (if keys[0] in entries then [(keys[0], entries[keys[0]])] else []) + Pairs(keys[1..], entries)
  }

  lemma {:induction false} PairsOfKeys(keys: seq<string>, entries: map<string, Entry>)
    requires forall k :: k in keys ==> k in entries
    ensures |Pairs(keys, entries)| == |keys|
    ensures forall i :: 0 <= i < |keys| ==> Pairs(keys, entries)[i] == (keys[i], entries[keys[i]])
  {
    if keys != [] {
      PairsOfKeys(keys[1..], entries);
      var rest := Pairs(keys[1..], entries);
      assert Pairs(keys, entries) == [(keys[0], entries[keys[0]])] + rest;
      forall i | 1 <= i < |keys| ensures Pairs(keys, entries)[i] == (keys[i], entries[keys[i]]) {
        assert keys[1..][i - 1] == keys[i];
      }
    }
  }

  /** The manifest the server serves for an index. */
  function DocumentOf(patcher: PatcherInfo, endPoint: string, ix: Index): Document
  {
    Document(patcher, map[ServerEndPointKey := endPoint], Pairs(ix.keys, ix.entries))
  }

  /**
   * The manifest lists every indexed file once, in index order, with its
   * entry, and carries the end point under "content_end_point", so a reader
   * of "content_endpoint" raises.
   */
  lemma DocumentOfIndex(patcher: PatcherInfo, endPoint: string, ix: Index)
    requires Consistent(ix)
    ensures var d := DocumentOf(patcher, endPoint, ix);
      && |d.files| == |ix.keys|
      && (forall i :: 0 <= i < |ix.keys| ==> d.files[i] == (ix.keys[i], ix.entries[ix.keys[i]]))
      && StringMember(d, ServerEndPointKey) == Some(endPoint)
      && StringMember(d, ClientEndPointKey) == None
  {
    PairsOfKeys(ix.keys, ix.entries);
  }

  /** Every listed file can still be read: a scan of this listing does not raise. */
  predicate ScanSucceeds(paths: seq<string>, disk: Disk)
  {
    forall p :: p in paths ==> p in disk
  }

  /** The index a full scan of a listing builds. */
  function ScanIndex(paths: seq<string>, disk: Disk, md5: HashFn): Index
  {
    Index(paths, map p | p in paths && p in disk :: EntryOf(disk[p], md5))
  }

  /** A successful scan indexes each listed file once: as many entries as files fetched. */
  lemma ScanIndexCount(paths: seq<string>, disk: Disk, md5: HashFn)
    requires Distinct(paths) && ScanSucceeds(paths, disk)
    ensures Consistent(ScanIndex(paths, disk, md5))
    ensures |ScanIndex(paths, disk, md5).entries| == |paths|
    ensures forall p :: p in paths ==> ScanIndex(paths, disk, md5).entries[p] == EntryOf(disk[p], md5)
  {
    assert ScanIndex(paths, disk, md5).entries.Keys == Elems(paths);
    ElemsCard(paths);
  }

  /** One more file scanned: its entry joins the index of the files before it. */
  lemma ScanIndexSnoc(paths: seq<string>, i: nat, disk: Disk, md5: HashFn)
    requires i < |paths| && Distinct(paths) && paths[i] in disk
    ensures paths[i] !in ScanIndex(paths[..i], disk, md5).entries
    ensures ScanIndex(paths[..i + 1], disk, md5)
      == Index(paths[..i] + [paths[i]], ScanIndex(paths[..i], disk, md5).entries[paths[i] := EntryOf(disk[paths[i]], md5)])
  {
    assert paths[..i + 1] == paths[..i] + [paths[i]];
    forall j | 0 <= j < i ensures paths[..i][j] != paths[i] {
      assert paths[..i][j] == paths[j];
    }
  }

  /** A listed file that is gone fails the scan, and what was indexed before it is consistent. */
  lemma ScanStops(paths: seq<string>, i: nat, disk: Disk, md5: HashFn)
    requires i < |paths| && Distinct(paths) && ScanSucceeds(paths[..i], disk) && paths[i] !in disk
    ensures !ScanSucceeds(paths, disk)
    ensures Consistent(ScanIndex(paths[..i], disk, md5))
  {
    assert paths[i] in paths;
    assert Distinct(paths[..i]);
    ScanIndexCount(paths[..i], disk, md5);
  }

  /** A listed file that is still there extends the readable prefix. */
  lemma ScanGoesOn(paths: seq<string>, i: nat, disk: Disk)
    requires i < |paths| && ScanSucceeds(paths[..i], disk) && paths[i] in disk
    ensures ScanSucceeds(paths[..i + 1], disk)
  {
    assert paths[..i + 1] == paths[..i] + [paths[i]];
  }

  /** What the first scan attempt whose files all stayed readable indexes, if any. */
  function FirstScan(attempts: seq<ScanAttempt>, md5: HashFn): Option<Index>
    decreases |attempts|
  {
    if attempts == [] then None
    else if ScanSucceeds(Listing(attempts[0].tree, ""), attempts[0].disk) then
      Some(ScanIndex(Listing(attempts[0].tree, ""), attempts[0].disk, md5))
    else FirstScan(attempts[1..], md5)
  }

  /** A scan that succeeds yields an ordered dictionary of the whole listing. */
  lemma {:induction false} FirstScanConsistent(attempts: seq<ScanAttempt>, md5: HashFn)
    requires forall i :: 0 <= i < |attempts| ==> WellFormed(attempts[i].tree)
    ensures FirstScan(attempts, md5).Some? ==> Consistent(FirstScan(attempts, md5).value)
    decreases |attempts|
  {
    if attempts != [] {
      var paths := Listing(attempts[0].tree, "");
      if ScanSucceeds(paths, attempts[0].disk) {
        ListingDistinct(attempts[0].tree, "");
        ScanIndexCount(paths, attempts[0].disk, md5);
      } else {
        FirstScanConsistent(attempts[1..], md5);
      }
    }
  }

  /** The answer to a request. */
  datatype Reply = Ok(body: Option<Document>) | NotFound | InternalServerError

  class Server {
    const md5: HashFn
    var isInited: bool
    var refreshRunning: bool
    /** The queued watcher actions, oldest first. */
    var queue: seq<Action>
    /** The `files` object: names in order, and their values. */
    var keys: seq<string>
    var entries: map<string, Entry>
    var patcher: PatcherInfo
    var endPoint: string
    /** The cached manifest; null until the first scan finishes. */
    var response: Option<Document>

    ghost predicate Valid()
      reads this
    {
      Consistent(Index(keys, entries))
    }

    function Files(): Index
      reads this
    {
      Index(keys, entries)
    }

    constructor(md5: HashFn)
      ensures Valid()
      ensures this.md5 == md5
      ensures !isInited && !refreshRunning && queue == [] && response == None
      ensures Files() == Index([], map[])
    {
      this.md5 := md5;
      isInited := false;
      refreshRunning := false;
      queue := [];
      keys := [];
      entries := map[];
      patcher := PatcherInfo("", None, None);
      endPoint := "";
      response := None;
    }

    /** A watcher notification: queue its action and start the worker if none is running. */
    method OnEvent(a: Action) returns (started: bool)
      modifies this`queue, this`refreshRunning
      ensures queue == old(queue) + [a]
      ensures started <==> !old(refreshRunning) && isInited
      ensures refreshRunning == (old(refreshRunning) || started)
    {
      queue := queue + [a];
      started := ScheduleRefresh();
    }

    /** Starts the worker only when the index is built, work is queued and no worker runs. */
    method ScheduleRefresh() returns (started: bool)
      modifies this`refreshRunning
      ensures started <==> !old(refreshRunning) && isInited && queue != []
      ensures refreshRunning == (old(refreshRunning) || started)
    {
      if refreshRunning || !isInited || queue == [] {
        return false;
      }
      refreshRunning := true;
      return true;
    }

    /** Runs one queued action against the index. */
    method Apply(a: Action, disk: Disk) returns (faulted: bool)
      requires Valid()
      modifies this`keys, this`entries
      ensures Valid()
      ensures var r := Step(old(Files()), a, disk, md5); Files() == r.ix && faulted == r.Fault?
    {
      StepConsistent(Files(), a, disk, md5);
      match a
      case FileCreated(p) =>
        if p !in disk {
          return true;
        }
        var e := EntryOf(disk[p], md5);
        if p !in entries {
          keys := keys + [p];
        }
        entries := entries[p := e];
        return false;
      case FileChanged(c, p) =>
        if c != Changed || p !in disk {
          return false;
        }
        if p !in entries {
          return true;
        }
        var e := entries[p];
        entries := entries[p := e.(size := |disk[p].content|, hash := FileHash(disk[p], md5))];
        return false;
      case FileDeleted(p) =>
        keys := Erase(keys, p);
        entries := entries - {p};
        return false;
      case FileRenamed(o, p) =>
        if o !in entries {
          return true;
        }
        var e := entries[o];
        keys := Erase(keys, o);
        entries := entries - {o};
        if p in entries {
          return true;
        }
        keys := keys + [p];
        entries := entries[p := e];
        return false;
      case DirCreated(_) =>
        return false;
      case DirChanged(_, _) =>
        return false;
      case DirDeleted(d) =>
        var removed := DeleteDirectory(d);
        return false;
      case DirRenamed(o, n) =>
        var moved;
        faulted, moved := RenameDirectory(o, n);
    }

    /** Removes every name that starts with `d`, over a snapshot of the names. */
    method DeleteDirectory(d: string) returns (count: nat)
      modifies this`keys, this`entries
      ensures DeleteUnder(old(Files()), old(keys), d, 0) == Done(Files(), count)
    {
      count := 0;
      var paths := keys;
      for i := 0 to |paths|
        invariant DeleteUnder(Files(), paths[i..], d, count) == DeleteUnder(old(Files()), paths, d, 0)
      {
        assert paths[i..][0] == paths[i] && paths[i..][1..] == paths[i + 1..];
        if StartsWith(paths[i], d) {
          keys := Erase(keys, paths[i]);
          entries := entries - {paths[i]};
          count := count + 1;
        }
      }
    }

    /** Moves every name that starts with `o` below `n`, over a snapshot of the names. */
    method RenameDirectory(o: string, n: string) returns (faulted: bool, count: nat)
      modifies this`keys, this`entries
      ensures var r := RenameUnder(old(Files()), old(keys), o, n, 0);
        Files() == r.ix && faulted == r.Fault? && (r.Done? ==> count == r.count)
    {
      count := 0;
      var paths := keys;
      for i := 0 to |paths|
        invariant RenameUnder(Files(), paths[i..], o, n, count) == RenameUnder(old(Files()), paths, o, n, 0)
      {
        assert paths[i..][0] == paths[i] && paths[i..][1..] == paths[i + 1..];
        var k := paths[i];
        if StartsWith(k, o) {
          if k !in entries {
            return true, count;
          }
          var e := entries[k];
          keys := Erase(keys, k);
          entries := entries - {k};
          var nk := Combine(n, RelativePath(o, k));
          if nk in entries {
            return true, count;
          }
          keys := keys + [nk];
          entries := entries[nk := e];
          count := count + 1;
        }
      }
      return false, count;
    }

    /**
     * The refresh worker: runs the queued actions oldest first; once the
     * queue is empty it caches a fresh manifest and stops.  An action that
     * raises is not caught on the worker's thread, so it ends the whole
     * server process: `crashed` reports that, and the state given is the
     * state the process ends in, with the rest of the queue never run.
     */
    method RefreshRunnable(disk: Disk) returns (crashed: bool)
      requires Valid()
      modifies this`keys, this`entries, this`queue, this`refreshRunning, this`response
      ensures Valid()
      ensures !isInited ==> !crashed && Files() == old(Files()) && queue == old(queue)
      ensures !isInited ==> refreshRunning == old(refreshRunning) && response == old(response)
      ensures isInited ==>
        match Replay(old(Files()), old(queue), disk, md5)
        case Drained(ix) =>
          !crashed && Files() == ix && queue == [] && !refreshRunning
          && response == Some(DocumentOf(patcher, endPoint, ix))
        case Crashed(ix, rest) =>
          crashed && Files() == ix && queue == rest
          && refreshRunning == old(refreshRunning) && response == old(response)
    {
      crashed := false;
      while isInited
        invariant Valid() && !crashed
        invariant !isInited ==> Files() == old(Files()) && queue == old(queue)
        invariant Replay(Files(), queue, disk, md5) == Replay(old(Files()), old(queue), disk, md5)
        invariant refreshRunning == old(refreshRunning) && response == old(response)
        decreases |queue|
      {
        if queue == [] {
          response := Some(DocumentOf(patcher, endPoint, Files()));
          refreshRunning := false;
          break;
        }
        var action := queue[0];
        queue := queue[1..];
        crashed := Apply(action, disk);
        if crashed {
          return;
        }
      }
    }

    /** Indexes every file of the tree; the size of a file that has gone raises. */
    method FullScan(tree: Node, disk: Disk) returns (ok: bool, numFiles: nat)
      requires WellFormed(tree)
      modifies this`keys, this`entries
      ensures Valid()
      ensures ok == ScanSucceeds(Listing(tree, ""), disk)
      ensures ok ==> Files() == ScanIndex(Listing(tree, ""), disk, md5)
      ensures ok ==> numFiles == |Listing(tree, "")| == |entries|
    {
      var paths := EnumerateFilesDeep(tree, [], "");
      assert paths == Listing(tree, "");
      ListingDistinct(tree, "");
      keys := [];
      entries := map[];
      numFiles := 0;
      for i := 0 to |paths|
        invariant ScanSucceeds(paths[..i], disk)
        invariant keys == paths[..i] && entries == ScanIndex(paths[..i], disk, md5).entries
        invariant numFiles == i
      {
        var p := paths[i];
        if p !in disk {
          ScanStops(paths, i, disk, md5);
          return false, numFiles;
        }
        ScanIndexSnoc(paths, i, disk, md5);
        ScanGoesOn(paths, i, disk);
        // the listing has no repeats, so `Add` always meets a new name
        keys := keys + [p];
        entries := entries[p := EntryOf(disk[p], md5)];
        numFiles := numFiles + 1;
      }
      assert paths[..|paths|] == paths;
      ScanIndexCount(paths, disk, md5);
      return true, numFiles;
    }

    /**
     * The end of a successful build: cache the manifest of the new index,
     * mark the server built, and let the worker replay what was queued.
     * A `crashed` worker ends the process, as in `RefreshRunnable`.
     */
    method Publish(info: PatcherInfo, ep: string, disk: Disk) returns (crashed: bool)
      requires Valid() && !refreshRunning
      modifies this`patcher, this`endPoint, this`response, this`isInited, this`keys, this`entries, this`queue, this`refreshRunning
      ensures Valid() && isInited && patcher == info && endPoint == ep
      ensures
        match Replay(old(Files()), old(queue), disk, md5)
        case Drained(ix) =>
          !crashed && Files() == ix && queue == [] && !refreshRunning
          && response == Some(DocumentOf(info, ep, ix))
        case Crashed(ix, rest) =>
          crashed && Files() == ix && queue == rest && refreshRunning
          && response == Some(DocumentOf(info, ep, old(Files())))
    {
      patcher := info;
      endPoint := ep;
      response := Some(DocumentOf(patcher, endPoint, Files()));
      isInited := true;
      crashed := false;
      var started := ScheduleRefresh();
      if started {
        crashed := RefreshRunnable(disk);
      }
    }

    /**
     * Builds the index and the manifest, retrying the scan while files
     * vanish under it, then lets the worker replay what was queued.
     * `attempts` are the successive scans; when all of them fail the
     * server is still not initialised.
     */
    method Init(config: Config, patcherBytes: seq<Byte>, attempts: seq<ScanAttempt>, disk: Disk)
      returns (ok: bool, crashed: bool)
      requires Valid()
      requires forall i :: 0 <= i < |attempts| ==> WellFormed(attempts[i].tree)
      modifies this
      ensures Valid()
      ensures ok == FirstScan(attempts, md5).Some?
      ensures !ok ==> !isInited && !crashed && queue == old(queue) && response == old(response)
      ensures ok ==> isInited && patcher == PatcherOf(config.patcherUrl, patcherBytes, md5)
      ensures ok ==> endPoint == config.contentEndPoint
      ensures ok ==>
        match Replay(FirstScan(attempts, md5).value, old(queue), disk, md5)
        case Drained(ix) =>
          !crashed && Files() == ix && queue == [] && !refreshRunning
          && response == Some(DocumentOf(patcher, endPoint, ix))
        case Crashed(ix, rest) =>
          crashed && Files() == ix && queue == rest && refreshRunning
          && response == Some(DocumentOf(patcher, endPoint, FirstScan(attempts, md5).value))
    {
      isInited := false;
      var info := PatcherOf(config.patcherUrl, patcherBytes, md5);
      ok, crashed := false, false;
      var i := 0;
      while i < |attempts|
        invariant 0 <= i <= |attempts|
        invariant Valid() && !isInited && queue == old(queue) && response == old(response)
        invariant FirstScan(attempts, md5) == FirstScan(attempts[i..], md5)
      {
        assert attempts[i..][0] == attempts[i] && attempts[i..][1..] == attempts[i + 1..];
        refreshRunning := false;
        var scanned, numFiles := FullScan(attempts[i].tree, attempts[i].disk);
        if scanned {
          crashed := Publish(info, config.contentEndPoint, disk);
          ok := true;
          return;
        }
        i := i + 1;
      }
    }

    /**
     * Rebuilds from scratch: nothing happens before the first build;
     * otherwise the queue is dropped and `Init` runs again.  The cached
     * manifest is not cleared, so the old one is served meanwhile.
     */
    method Reload(config: Config, patcherBytes: seq<Byte>, attempts: seq<ScanAttempt>, disk: Disk)
      returns (ok: bool)
      requires Valid()
      requires forall i :: 0 <= i < |attempts| ==> WellFormed(attempts[i].tree)
      modifies this
      ensures Valid()
      ensures !old(isInited) ==> unchanged(this) && !ok
      ensures old(isInited) ==> ok == FirstScan(attempts, md5).Some? && queue == []
      ensures old(isInited) && !ok ==> !isInited && response == old(response)
      ensures old(isInited) && ok ==>
        && isInited && !refreshRunning
        && Files() == FirstScan(attempts, md5).value
        && patcher == PatcherOf(config.patcherUrl, patcherBytes, md5)
        && endPoint == config.contentEndPoint
        && response == Some(DocumentOf(patcher, endPoint, Files()))
    {
      if !isInited {
        return false;
      }
      isInited := false;
      // the worker sees the flag and stops; the watchers stop raising events
      queue := [];
      var crashed;
      ok, crashed := Init(config, patcherBytes, attempts, disk);
    }

    /**
     * `/` serves the cached manifest, `/reload` rebuilds, anything else is
     * 404.  `/` without a cached manifest answers 500 here; the program never
     * serves in that state, since the listener starts only after a build has
     * cached one and nothing clears it.  When the rebuild's worker crashes the
     * process ends, and the reply given here is never sent.
     */
    method HandleRequest(absPath: string, config: Config, patcherBytes: seq<Byte>, attempts: seq<ScanAttempt>, disk: Disk)
      returns (reply: Reply)
      requires Valid()
      requires forall i :: 0 <= i < |attempts| ==> WellFormed(attempts[i].tree)
      modifies this
      ensures Valid()
      ensures absPath == "/" ==> unchanged(this) && reply == (if response.Some? then Ok(response) else InternalServerError)
      ensures absPath == "/reload" ==> reply == Ok(None)
      ensures absPath == "/reload" && !old(isInited) ==> unchanged(this)
      ensures absPath == "/reload" && old(isInited) && !isInited ==> queue == [] && response == old(response)
      ensures absPath == "/reload" && old(isInited) ==> queue == [] && (isInited ==> FirstScan(attempts, md5).Some? && Files() == FirstScan(attempts, md5).value)
      ensures absPath != "/" && absPath != "/reload" ==> unchanged(this) && reply == NotFound
    {
      if absPath == "/" {
        if response.None? {
          reply := InternalServerError;
        } else {
          reply := Ok(response);
        }
      } else if absPath == "/reload" {
        var rebuilt := Reload(config, patcherBytes, attempts, disk);
        reply := Ok(None);
      } else {
        reply := NotFound;
      }
    }
  }
}
