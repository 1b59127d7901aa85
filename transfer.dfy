/**
 * The wrapper's single-file downloader: it appends the content at a URL to
 * `<path>.temp`, resuming with a range request after an interrupted
 * response, waits until `<path>` is free, and then replaces `<path>` with
 * the temporary file.
 *
 * The directory is a `FileStore` object whose map the downloader changes in
 * place.  The network is a well-behaved server that honours ranges: it
 * serves the fixed `body`, and each attempt either fails outright or
 * delivers the response in reads of the given sizes until the connection
 * is lost.  The source retries for ever; here the retries run over the
 * supplied attempts, and running out of them is reported as not completed.
 */
module Transfer {
  import opened Wrappers
  import opened Hex

  /** The size of the copy buffer. */
  const ChunkSize: nat := 1024

  datatype Status = Initializing | Waiting | Downloading | Finishing | Finished

  /** One progress notification: the status at the time and the bytes just written. */
  datatype Progress = Progress(status: Status, step: nat)

  /** One request: refused (or failing before a response), or a response read in chunks. */
  datatype Attempt = Refused | Streamed(chunks: seq<nat>)

  function TempPath(path: string): string
  {
    path + ".temp"
  }

  lemma TempPathDiffers(path: string)
    ensures TempPath(path) != path
  {
    assert |TempPath(path)| == |path| + 5;
  }

  /** The total number of bytes reported by a run of notifications. */
  function Steps(events: seq<Progress>): nat
  {
    if events == [] then 0 else Steps(events[..|events| - 1]) + events[|events| - 1].step
  }

  function Min(a: nat, b: nat): (m: nat)
    ensures m <= a && m <= b && (m == a || m == b)
  {
    if a <= b then a else b
  }

  /**
   * How many of `n` remaining bytes a response delivers when its reads,
   * from the `k`-th on, return the given sizes, each capped by the buffer:
   * the copy stops at a read of nothing, when the reads run out, or once
   * all `n` have come.
   */
  function Delivered(n: nat, chunks: seq<nat>, k: nat): (d: nat)
    ensures d <= n
    decreases |chunks| - k
  {
    if n == 0 || k >= |chunks| || chunks[k] == 0 then 0
    else
      var size := Min(Min(chunks[k], ChunkSize), n);
      size + Delivered(n - size, chunks, k + 1)
  }

  /** Reads that each fill the buffer deliver everything, once there are enough of them. */
  lemma {:induction false} FullReadsDeliverAll(n: nat, chunks: seq<nat>, k: nat)
    requires k <= |chunks|
    requires forall i :: k <= i < |chunks| ==> chunks[i] >= ChunkSize
    requires n <= (|chunks| - k) * ChunkSize
    ensures Delivered(n, chunks, k) == n
    decreases |chunks| - k
  {
    if n > 0 {
      var size := Min(Min(chunks[k], ChunkSize), n);
      FullReadsDeliverAll(n - size, chunks, k + 1);
    }
  }

  /** `p` is `start` followed by notifications of bytes written while downloading. */
  ghost predicate Extends(start: seq<Progress>, p: seq<Progress>)
  {
    && |p| >= |start| && p[..|start|] == start
    && forall i :: |start| <= i < |p| ==> p[i].status == Downloading && p[i].step > 0
  }

  lemma ExtendsByStep(start: seq<Progress>, p: seq<Progress>, n: nat)
    requires Extends(start, p) && n > 0
    ensures Extends(start, p + [Progress(Downloading, n)])
    ensures Steps(p + [Progress(Downloading, n)]) == Steps(p) + n
  {
    assert (p + [Progress(Downloading, n)])[..|p|] == p;
    assert (p + [Progress(Downloading, n)])[..|start|] == p[..|start|];
  }

  lemma ExtendsTrans(a: seq<Progress>, b: seq<Progress>, c: seq<Progress>)
    requires Extends(a, b) && Extends(b, c)
    ensures Extends(a, c)
  {
    assert c[..|a|] == c[..|b|][..|a|];
  }

  /** Status notices report no bytes. */
  lemma {:induction false} StepsOfNotices(p: seq<Progress>, notices: seq<Progress>)
    requires forall i :: 0 <= i < |notices| ==> notices[i].step == 0
    ensures Steps(p + notices) == Steps(p)
    decreases |notices|
  {
    if notices == [] {
      assert p + notices == p;
    } else {
      var front := notices[..|notices| - 1];
      assert (p + notices)[..|p + notices| - 1] == p + front;
      StepsOfNotices(p, front);
    }
  }

  /** Staging `body` in a fresh temporary file and moving it onto `path` only sets `path`. */
  lemma StagedThenMoved(files: map<string, seq<Byte>>, path: string, body: seq<Byte>)
    requires TempPath(path) !in files
    ensures (files[TempPath(path) := body] - {TempPath(path)})[path := body] == files[path := body]
  {
    TempPathDiffers(path);
  }

  /** The three closing notices follow the fetch's notices and report no bytes. */
  lemma ClosingNotices(fetched: seq<Progress>)
    ensures var p := fetched + [Progress(Waiting, 0)] + [Progress(Finishing, 0)] + [Progress(Finished, 0)];
      && |p| >= 3
      && p[|p| - 3..] == [Progress(Waiting, 0), Progress(Finishing, 0), Progress(Finished, 0)]
      && p[..|p| - 3] == fetched
      && Steps(p) == Steps(fetched)
  {
    var closing := [Progress(Waiting, 0), Progress(Finishing, 0), Progress(Finished, 0)];
    assert fetched + [Progress(Waiting, 0)] + [Progress(Finishing, 0)] + [Progress(Finished, 0)] == fetched + closing;
    StepsOfNotices(fetched, closing);
  }

  /** The `Range` header of a request: from the position once a positive length is known, none otherwise. */
  function RangeFrom(position: int, length: int): (range: Option<nat>)
    requires position >= 0
    ensures range.Some? <==> length > 0
    ensures range.Some? ==> range.value == position
  {
    if length > 0 then Some(position) else None
  }

  /** The first byte of the body the server sends for a request with this range. */
  function Offset(range: Option<nat>): nat
  {
    if range.Some? then range.value else 0
  }

  /**
   * The range makes resuming sound: when the temporary file holds the start
   * of the body, and a length is known whenever it holds anything, the
   * server's answer to a request ranged by `RangeFrom` continues that start,
   * however much of it arrives.
   */
  lemma RangeResumes(body: seq<Byte>, staged: seq<Byte>, length: int, n: nat)
    requires |staged| <= |body| && staged == body[..|staged|]
    requires length > 0 || staged == []
    requires n <= |body| - |staged|
    ensures Offset(RangeFrom(|staged|, length)) == |staged|
    ensures staged + body[Offset(RangeFrom(|staged|, length))..][..n] == body[..|staged| + n]
  {
    assert body[..|staged| + n] == body[..|staged|] + body[|staged|..][..n];
  }

  /**
   * What the ranges of the requests sent so far promise: each range starts
   * at or before the current position and implies a positive length, and
   * once a request is ranged every later one is, from no earlier offset.
   */
  ghost predicate RangeLog(ranges: seq<Option<nat>>, position: int, length: int)
  {
    && (forall i :: 0 <= i < |ranges| && ranges[i].Some? ==> ranges[i].value <= position && length > 0)
    && (forall i, j :: 0 <= i < j < |ranges| && ranges[i].Some? ==> ranges[j].Some? && ranges[i].value <= ranges[j].value)
  }

  /** One more request keeps the log's promises: the position never goes back and a positive length stays. */
  lemma RangeLogStep(ranges: seq<Option<nat>>, position: int, length: int, position': int, length': int)
    requires RangeLog(ranges, position, length) && 0 <= position <= position'
    requires length > 0 ==> length' == length
    ensures RangeLog(ranges + [RangeFrom(position, length)], position', length')
  {
    var r := ranges + [RangeFrom(position, length)];
    forall i, j | 0 <= i < j < |r| && r[i].Some? ensures r[j].Some? && r[i].value <= r[j].value {
      if j == |ranges| {
        assert ranges[i].Some? && length > 0;
      }
    }
  }

  /** The ranges sent from a start position and length: the log's promises, and the first request's range. */
  ghost predicate RangeHistory(ranges: seq<Option<nat>>, start: nat, length0: int, position: int, length: int)
  {
    && RangeLog(ranges, position, length)
    && (ranges == [] ==> position == start && length == length0)
    && (ranges != [] ==> ranges[0] == RangeFrom(start, length0))
  }

  lemma RangeHistoryStep(ranges: seq<Option<nat>>, start: nat, length0: int,
                         position: int, length: int, position': int, length': int)
    requires RangeHistory(ranges, start, length0, position, length) && 0 <= position <= position'
    requires length > 0 ==> length' == length
    ensures RangeHistory(ranges + [RangeFrom(position, length)], start, length0, position', length')
  {
    RangeLogStep(ranges, position, length, position', length');
  }

  /** Some attempt among the first `a` got a response. */
  predicate Responded(attempts: seq<Attempt>, a: nat)
    requires a <= |attempts|
  {
    a > 0 && (attempts[a - 1].Streamed? || Responded(attempts, a - 1))
  }

  /** `Responded` says that some attempt among the first `a` is a response. */
  lemma {:induction false} RespondedMeans(attempts: seq<Attempt>, a: nat)
    requires a <= |attempts|
    ensures Responded(attempts, a) <==> exists i :: 0 <= i < a && attempts[i].Streamed?
  {
    if a > 0 {
      RespondedMeans(attempts, a - 1);
    }
  }

  /** One more request keeps the length set once a response has come. */
  lemma RespondedStep(attempts: seq<Attempt>, a: nat, length0: int, before: int, after: int, size: nat)
    requires a < |attempts|
    requires length0 < 0 && Responded(attempts, a) ==> before == size
    requires before == length0 || (length0 < 0 && before == size)
    requires after == before || (before < 0 && after == size)
    requires attempts[a].Streamed? && before < 0 ==> after == size
    ensures length0 < 0 && Responded(attempts, a + 1) ==> after == size
  {
  }

  /** Appending the next slice of `content` extends the copied prefix. */
  lemma AppendSlice(base: seq<Byte>, content: seq<Byte>, copied: nat, size: nat)
    requires copied + size <= |content|
    ensures base + content[..copied] + content[copied..copied + size] == base + content[..copied + size]
  {
    assert content[..copied + size] == content[..copied] + content[copied..copied + size];
  }

  class FileStore {
    var files: map<string, seq<Byte>>

    constructor(files: map<string, seq<Byte>>)
      ensures this.files == files
    {
      this.files := files;
    }
  }

  class Downloader {
    const store: FileStore
    const path: string
    const url: string
    var status: Status
    var isRunning: bool
    var outputOpen: bool
    var position: int
    var length: int
    /** The notifications sent so far, oldest first. */
    var progress: seq<Progress>

    /** A new downloader starts from nothing: any old temporary file is removed. */
    constructor(store: FileStore, path: string, url: string)
      modifies store
      ensures this.store == store && this.path == path && this.url == url
      ensures status == Initializing && !isRunning && !outputOpen
      ensures position == 0 && length == -1 && progress == []
      ensures store.files == old(store.files) - {TempPath(path)}
    {
      this.store := store;
      this.path := path;
      this.url := url;
      status := Initializing;
      isRunning := false;
      outputOpen := false;
      position := 0;
      length := -1;
      progress := [];
      new;
      if TempPath(path) in store.files {
        store.files := store.files - {TempPath(path)};
      }
    }

    /** Closes the output and clears the running flag; a transfer loop already under way is not stopped. */
    method AbortDownload()
      modifies this`outputOpen, this`isRunning
      ensures !outputOpen && !isRunning
    {
      outputOpen := false;
      isRunning := false;
    }

    /** Stops the download and throws the partial file away; nothing else in the directory changes. */
    method CancelDownload()
      modifies this`outputOpen, this`isRunning, store
      ensures !outputOpen && !isRunning
      ensures store.files == old(store.files) - {TempPath(path)}
    {
      AbortDownload();
      if TempPath(path) in store.files {
        store.files := store.files - {TempPath(path)};
      }
    }

    /**
     * Copies one response: `content` is what the server sends for this
     * request, read in chunks of at most `ChunkSize` bytes.  A read of
     * nothing, or running out of chunks, is the connection being lost.
     */
    method CopyResponse(content: seq<Byte>, chunks: seq<nat>) returns (copied: nat)
      requires TempPath(path) in store.files
      modifies store, this`position, this`progress
      ensures copied == Delivered(|content|, chunks, 0)
      ensures store.files == old(store.files)[TempPath(path) := old(store.files)[TempPath(path)] + content[..copied]]
      ensures position == old(position) + copied
      ensures Steps(progress) == Steps(old(progress)) + copied
      ensures Extends(old(progress), progress)
    {
      var temp := TempPath(path);
      copied := 0;
      var k := 0;
      assert old(store.files)[temp] + content[..0] == old(store.files)[temp];
      assert old(store.files)[temp := old(store.files)[temp]] == old(store.files);
      while copied != |content| && k < |chunks|
        invariant copied <= |content| && k <= |chunks|
        invariant copied + Delivered(|content| - copied, chunks, k) == Delivered(|content|, chunks, 0)
        invariant store.files == old(store.files)[temp := old(store.files)[temp] + content[..copied]]
        invariant position == old(position) + copied
        invariant Steps(progress) == Steps(old(progress)) + copied
        invariant Extends(old(progress), progress)
        decreases |chunks| - k
      {
        var size := Min(Min(chunks[k], ChunkSize), |content| - copied);
        if size == 0 {
          break;
        }
        AppendSlice(old(store.files)[temp], content, copied, size);
        ExtendsByStep(old(progress), progress, size);
        Write(content[copied..copied + size]);
        copied := copied + size;
        k := k + 1;
      }
    }

    /** Writes one read to the temporary file, advances the position and reports the bytes written. */
    method Write(data: seq<Byte>)
      requires TempPath(path) in store.files
      modifies store, this`position, this`progress
      ensures store.files == old(store.files)[TempPath(path) := old(store.files)[TempPath(path)] + data]
      ensures position == old(position) + |data|
      ensures progress == old(progress) + [Progress(Downloading, |data|)]
    {
      store.files := store.files[TempPath(path) := store.files[TempPath(path)] + data];
      position := position + |data|;
      progress := progress + [Progress(Downloading, |data|)];
    }

    /**
     * The transfer loop.  A request carries a range from the current
     * position only once a length is known and positive; the first response
     * fixes the length; the loop ends when the position reaches it.  From an
     * absent temporary file, the temporary file then holds exactly `body`,
     * and every notification together reports its size.
     */
    method Fetch(body: seq<Byte>, attempts: seq<Attempt>) returns (completed: bool, ranges: seq<Option<nat>>)
      modifies store, this`position, this`length, this`progress, this`outputOpen
      ensures !completed ==> |ranges| == |attempts|
      ensures completed ==> 0 < |ranges| <= |attempts|
      ensures |ranges| > 0 ==>
        ranges[0] == RangeFrom(if TempPath(path) in old(store.files) then |old(store.files)[TempPath(path)]| else 0, old(length))
      ensures RangeLog(ranges, position, length)
      ensures old(length) < 0 && Responded(attempts, |ranges|) ==> length == |body|
      ensures !outputOpen
      ensures TempPath(path) in store.files
      ensures store.files == old(store.files)[TempPath(path) := store.files[TempPath(path)]]
      ensures |store.files[TempPath(path)]| == position
      ensures length == old(length) || (old(length) < 0 && length == |body|)
      ensures Extends(old(progress), progress)
      ensures completed ==> 0 <= length == position
      ensures old(TempPath(path) !in store.files) && old(length) == -1 ==>
        && 0 <= position <= |body|
        && store.files[TempPath(path)] == body[..position]
        && Steps(progress) == Steps(old(progress)) + position
        && (completed ==> position == |body|)
    {
      var temp := TempPath(path);
      ghost var clean := temp !in store.files && length == -1;
      OpenOutput();
      ghost var start := position;
      ranges := [];
      assert clean ==> store.files[temp] == body[..0];
      assert Extends(old(progress), progress) by {
        assert progress[..|progress|] == progress;
      }
      var a := 0;
      while true
        invariant outputOpen
        invariant Transferring(body, attempts, a, ranges, old(store.files), old(progress), old(length), clean, start)
        decreases |attempts| - a
      {
        if a == |attempts| {
          outputOpen := false;
          return false, ranges;
        }
        ranges := Pass(body, attempts, a, ranges, old(store.files), old(progress), old(length), clean, start);
        a := a + 1;
        if length >= 0 && position == length {
          break;
        }
      }
      outputOpen := false;
      return true, ranges;
    }

    /**
     * What the transfer loop keeps after `a` attempts, measured from the
     * files `files0`, the notifications `progress0` and the length `length0`
     * it started with: only the temporary file has changed and its size is
     * the position, the length is the start's or the body's size once a
     * response has come, the notifications only grew by downloading steps,
     * a clean start still holds the start of the body, and `ranges` logs
     * one range per attempt.
     */
    ghost predicate Transferring(body: seq<Byte>, attempts: seq<Attempt>, a: nat, ranges: seq<Option<nat>>,
                                 files0: map<string, seq<Byte>>, progress0: seq<Progress>, length0: int, clean: bool, start: nat)
      reads this, store
    {
      && a <= |attempts|
      && TempPath(path) in store.files
      && store.files == files0[TempPath(path) := store.files[TempPath(path)]]
      && |store.files[TempPath(path)]| == position
      && (length == length0 || (length0 < 0 && length == |body|))
      && Extends(progress0, progress)
      && (clean ==> Staged(body) && Steps(progress) == Steps(progress0) + position)
      && |ranges| == a && RangeHistory(ranges, start, length0, position, length)
      && (length0 < 0 && Responded(attempts, a) ==> length == |body|)
    }

    /** One pass of the transfer loop: a request, with its range added to the log of ranges sent. */
    method Pass(body: seq<Byte>, attempts: seq<Attempt>, a: nat, ranges: seq<Option<nat>>,
                ghost files0: map<string, seq<Byte>>, ghost progress0: seq<Progress>, ghost length0: int, ghost clean: bool, ghost start: nat)
      returns (ranges': seq<Option<nat>>)
      requires a < |attempts|
      requires Transferring(body, attempts, a, ranges, files0, progress0, length0, clean, start)
      modifies store, this`position, this`length, this`progress
      ensures ranges' == ranges + [RangeFrom(old(position), old(length))]
      ensures Transferring(body, attempts, a + 1, ranges', files0, progress0, length0, clean, start)
    {
      ghost var before, known, reported := position, length, progress;
      var range := Request(body, attempts[a]);
      ExtendsTrans(progress0, reported, progress);
      RangeHistoryStep(ranges, start, length0, before, known, position, length);
      assert known < 0 ==> Offset(range) == 0;
      RespondedStep(attempts, a, length0, known, length, |body|);
      ranges' := ranges + [range];
    }

    /** Opens the temporary file for appending, creating it empty when absent; the position is its size. */
    method OpenOutput()
      modifies store, this`outputOpen, this`position
      ensures outputOpen && TempPath(path) in store.files
      ensures old(TempPath(path) in store.files) ==> store.files == old(store.files)
      ensures old(TempPath(path) !in store.files) ==> store.files == old(store.files)[TempPath(path) := []]
      ensures position == |store.files[TempPath(path)]|
    {
      var temp := TempPath(path);
      if temp !in store.files {
        store.files := store.files[temp := []];
      }
      outputOpen := true;
      position := |store.files[temp]|;
    }

    /**
     * The temporary file holds the start of `body` up to the position, and
     * the length is unknown (nothing received yet) or the body's size.
     */
    ghost predicate Staged(body: seq<Byte>)
      reads this, store
    {
      && TempPath(path) in store.files
      && 0 <= position <= |body|
      && store.files[TempPath(path)] == body[..position]
      && (length == -1 ==> position == 0)
      && (length == -1 || length == |body|)
    }

    /**
     * One pass of the transfer loop: the range starts at the position only
     * when a positive length is known; a first response fixes the length.
     * A range beyond the end of the body is refused.
     */
    method Request(body: seq<Byte>, attempt: Attempt) returns (range: Option<nat>)
      requires TempPath(path) in store.files && |store.files[TempPath(path)]| == position
      modifies store, this`position, this`length, this`progress
      ensures range == RangeFrom(old(position), old(length))
      ensures position >= old(position)
      ensures TempPath(path) in store.files && |store.files[TempPath(path)]| == position
      ensures store.files == old(store.files)[TempPath(path) := store.files[TempPath(path)]]
      ensures length == old(length) || (old(length) < 0 && length == |body|)
      ensures Extends(old(progress), progress)
      ensures Steps(progress) == Steps(old(progress)) + (position - old(position))
      ensures old(Staged(body)) ==> Staged(body)
      ensures attempt.Refused? || Offset(range) > |body| ==>
        store.files == old(store.files) && position == old(position) && length == old(length) && progress == old(progress)
      ensures attempt.Streamed? && Offset(range) <= |body| ==>
        && position - old(position) == Delivered(|body| - Offset(range), attempt.chunks, 0)
        && (old(length) < 0 ==> length == |body|)
        && store.files[TempPath(path)] == old(store.files)[TempPath(path)] + body[Offset(range)..][..position - old(position)]
    {
      range := if length > 0 then Some(position) else None;
      // the server answers from the range's offset, or from the start without one
      var from := if range.Some? then range.value else 0;
      if attempt.Refused? || from > |body| {
        assert old(progress)[..|old(progress)|] == old(progress);
        return;
      }
      ghost var staged := Staged(body);
      var content := body[from..];
      if length < 0 {
        length := |content|;
      }
      ghost var before := store.files[TempPath(path)];
      var copied := CopyResponse(content, attempt.chunks);
      if staged {
        RangeResumes(body, before, old(length), copied);
      }
    }

    /**
     * The whole download: announce each stage, fetch into the temporary
     * file, wait while the target is in use, then replace the target with
     * the temporary file.  `busy` answers the successive in-use checks.
     * Started from an absent temporary file, a completed download leaves
     * the target holding exactly `body` and changes nothing else; an
     * unfinished one never touches the target.
     */
    method Download(body: seq<Byte>, attempts: seq<Attempt>, busy: seq<bool>) returns (completed: bool)
      modifies store, this`status, this`progress, this`isRunning, this`position, this`length, this`outputOpen
      ensures !outputOpen
      ensures !completed ==> (path in store.files <==> path in old(store.files))
      ensures !completed && path in store.files ==> store.files[path] == old(store.files)[path]
      ensures completed ==> status == Finished && !isRunning
      ensures completed ==> |progress| >= 3 && progress[|progress| - 3..] == [Progress(Waiting, 0), Progress(Finishing, 0), Progress(Finished, 0)]
      ensures completed ==> Extends(old(progress) + [Progress(Initializing, 0), Progress(Downloading, 0)], progress[..|progress| - 3])
      ensures completed && old(TempPath(path) !in store.files) && old(length) == -1 ==>
        && store.files == old(store.files)[path := body]
        && Steps(progress) == Steps(old(progress)) + |body|
    {
      var temp := TempPath(path);
      TempPathDiffers(path);
      Announce(Initializing);
      Announce(Downloading);
      assert progress == old(progress) + [Progress(Initializing, 0), Progress(Downloading, 0)];
      StepsOfNotices(old(progress), [Progress(Initializing, 0), Progress(Downloading, 0)]);
      ghost var clean := temp !in store.files && length == -1;
      var ranges;
      completed, ranges := Fetch(body, attempts);
      if !completed {
        return;
      }
      ghost var fetched := progress;
      ghost var staged := store.files;
      assert clean ==> staged[temp] == body by {
        if clean {
          assert body[..|body|] == body;
        }
      }
      completed := Finish(busy);
      if !completed {
        return;
      }
      ClosingNotices(fetched);
      if clean {
        StagedThenMoved(old(store.files), path, body);
      }
    }

    /** After the transfer: wait until the target is free, then put the temporary file in its place. */
    method Finish(busy: seq<bool>) returns (done: bool)
      requires TempPath(path) in store.files
      modifies store, this`status, this`progress, this`isRunning
      ensures !done ==> store.files == old(store.files)
      ensures done ==> store.files == (old(store.files) - {TempPath(path)})[path := old(store.files)[TempPath(path)]]
      ensures done ==> status == Finished && !isRunning
      ensures done ==> progress == old(progress) + [Progress(Waiting, 0)] + [Progress(Finishing, 0)] + [Progress(Finished, 0)]
    {
      Announce(Waiting);
      done := WaitUntilFree(busy);
      if !done {
        return;
      }
      Announce(Finishing);
      Replace();
      Announce(Finished);
      isRunning := false;
    }

    /** Sets the status and notifies it with a step of nothing. */
    method Announce(s: Status)
      modifies this`status, this`progress
      ensures status == s && progress == old(progress) + [Progress(s, 0)]
    {
      status := s;
      progress := progress + [Progress(s, 0)];
    }

    /**
     * Polls while the target exists and is in use; `busy` answers the
     * successive checks, and running out of answers is waiting for ever.
     */
    method WaitUntilFree(busy: seq<bool>) returns (free: bool)
      ensures free <==> path !in store.files || false in busy
    {
      var i := 0;
      while path in store.files && i < |busy| && busy[i]
        invariant i <= |busy|
        invariant forall j :: 0 <= j < i ==> busy[j]
        decreases |busy| - i
      {
        i := i + 1;
      }
      free := path !in store.files || i < |busy|;
    }

    /** Deletes the target if it exists, then moves the temporary file onto it. */
    method Replace()
      requires TempPath(path) in store.files
      modifies store
      ensures store.files == (old(store.files) - {TempPath(path)})[path := old(store.files)[TempPath(path)]]
    {
      var temp := TempPath(path);
      TempPathDiffers(path);
      if path in store.files {
        store.files := store.files - {path};
      }
      store.files := (store.files - {temp})[path := store.files[temp]];
    }
  }
}
