/**
 * The server's content index: the `files` object of the manifest, built by a
 * full scan of the content directory and then kept current by replaying the
 * file-system watcher's queued actions one at a time.
 *
 * The index is an ordered dictionary (`Index`): member names in insertion
 * order plus their values.  `Step` is what one queued action does to it;
 * an action that raises (a lookup of a missing name, an `Add` of a name
 * already present, the size of a file that is gone) ends in `Fault`, and
 * `Replay` stops there, because the exception is not caught on the refresh
 * worker's thread and ends the server process.
 *
 * The member order of the JSON object is taken to be insertion order, with
 * a removed name forgotten, so that a re-added name comes last.
 */
module ContentIndex {
  import opened Wrappers
  import opened Hex
  import opened Manifest
  import opened FileTree

  /** A file as the server finds it: its bytes, and whether it can be opened for reading. */
  datatype DiskFile = DiskFile(content: seq<Byte>, readable: bool)

  /** The content directory at the moment an action runs, by relative path. */
  type Disk = map<string, DiskFile>

  /** `FileHashMD5`: the upper-case hex digest, or null when opening the file raises an I/O error. */
  function FileHash(f: DiskFile, md5: HashFn): (h: Option<string>)
    ensures h.Some? <==> f.readable
    ensures h.Some? ==> |h.value| == 32 && ParseHex(h.value) == Some(md5(f.content))
  {
    if f.readable then
      PlainShape(md5(f.content));
      ParseHexRoundTrip(md5(f.content));
      Some(DigestHex(md5(f.content)))
    else None
  }

  /** The value the server records for a file: `{ size, hash, alg: "md5" }`. */
  function EntryOf(f: DiskFile, md5: HashFn): Entry
  {
    Entry(|f.content|, FileHash(f, md5), Md5)
  }

  // ---------------------------------------------------------------------
  // The ordered dictionary

  /** The `files` object: member names in insertion order, and their values. */
  datatype Index = Index(keys: seq<string>, entries: map<string, Entry>)

  /** Each name listed once, and exactly the names that have a value. */
  ghost predicate Consistent(ix: Index)
  {
    Distinct(ix.keys) && forall k :: k in ix.keys <==> k in ix.entries
  }

  function Elems(s: seq<string>): set<string>
  {
    set x | x in s
  }

  /** `s` without `k`, order kept. */
  function Erase(s: seq<string>, k: string): (r: seq<string>)
    ensures forall x :: x in r <==> x in s && x != k
  {
    if s == [] then [] else (if s[0] == k then [] else [s[0]]) + Erase(s[1..], k)
  }

  /** The first name of a list without repeats does not recur, and the rest has no repeats. */
  lemma HeadNotInTail(s: seq<string>)
    requires Distinct(s) && s != []
    ensures s[0] !in s[1..] && Distinct(s[1..])
  {
    forall j | 0 <= j < |s[1..]| ensures s[1..][j] != s[0] {
      assert s[1..][j] == s[j + 1];
    }
    forall i, j | 0 <= i < j < |s[1..]| ensures s[1..][i] != s[1..][j] {
      assert s[1..][i] == s[i + 1] && s[1..][j] == s[j + 1];
    }
  }

  lemma {:induction false} EraseDistinct(s: seq<string>, k: string)
    requires Distinct(s)
    ensures Distinct(Erase(s, k))
  {
    if s != [] {
      HeadNotInTail(s);
      EraseDistinct(s[1..], k);
      var head := if s[0] == k then [] else [s[0]];
      DistinctConcat(head, Erase(s[1..], k));
    }
  }

  /** `Add` of an absent name (appended), or the indexer on a present one (kept in place). */
  function Put(ix: Index, k: string, v: Entry): Index
  {
    Index(if k in ix.entries then ix.keys else ix.keys + [k], ix.entries[k := v])
  }

  /** `Remove`: nothing happens for an absent name. */
  function Delete(ix: Index, k: string): Index
  {
    Index(Erase(ix.keys, k), ix.entries - {k})
  }

  lemma PutConsistent(ix: Index, k: string, v: Entry)
    requires Consistent(ix)
    ensures Consistent(Put(ix, k, v))
  {
    if k !in ix.entries {
      DistinctConcat(ix.keys, [k]);
    }
  }

  lemma DeleteConsistent(ix: Index, k: string)
    requires Consistent(ix)
    ensures Consistent(Delete(ix, k))
  {
    EraseDistinct(ix.keys, k);
  }

  /** The number of names of a list without repeats is its length. */
  lemma {:induction false} ElemsCard(s: seq<string>)
    requires Distinct(s)
    ensures |Elems(s)| == |s|
  {
    if s != [] {
      var t := s[..|s| - 1];
      assert Distinct(t);
      ElemsCard(t);
      assert s == t + [s[|s| - 1]];
      assert Elems(s) == Elems(t) + {s[|s| - 1]};
      assert s[|s| - 1] !in Elems(t) by {
        forall i | 0 <= i < |t| ensures t[i] != s[|s| - 1] {
          assert t[i] == s[i];
        }
      }
    }
  }

  // ---------------------------------------------------------------------
  // Paths relative to a renamed directory

  /** Length of the directory part of `b`, its final separator included. */
  function ParentLength(b: string): (n: nat)
    ensures n <= |b|
    ensures n > 0 ==> b[n - 1] == Sep
    ensures Sep !in b[n..]
  {
    if b == [] then 0
    else if b[|b| - 1] == Sep then |b|
    else
      var n := ParentLength(b[..|b| - 1]);
      assert b[n..] == b[..|b| - 1][n..] + [b[|b| - 1]];
      n
  }

  /**
   * `Path.GetRelativePath(b, p)` for a path `p` that starts with `b` as a
   * string: "." for `b` itself, the part below `b` for a descendant, and a
   * step up through `b`'s parent for anything else, such as `b` = "a" and
   * `p` = "ab/x".
   */
  function RelativePath(b: string, p: string): string
    requires StartsWith(p, b)
  {
    if p == b then "."
    else if StartsWith(p, b + [Sep]) then p[|b| + 1..]
    else ".." + [Sep] + p[ParentLength(b)..]
  }

  /** The new name of `k` when directory `o` is renamed to `n`. */
  function Rekey(o: string, n: string, k: string): string
    requires StartsWith(k, o)
  {
    Combine(n, RelativePath(o, k))
  }

  /** A file below the renamed directory keeps its path below the new name. */
  lemma RekeyDescendant(o: string, n: string, r: string)
    requires n != [] && n[|n| - 1] != Sep
    requires r != [] && r[0] != Sep
    ensures StartsWith(o + [Sep] + r, o)
    ensures Rekey(o, n, o + [Sep] + r) == n + [Sep] + r
  {
    var k := o + [Sep] + r;
    assert k[..|o|] == o;
    assert k[..|o| + 1] == o + [Sep];
    assert k[|o| + 1..] == r;
  }

  /** A sibling that merely shares the directory's name as a prefix is carried along as "n/../ab/x". */
  lemma RekeySibling()
    ensures StartsWith("ab/x", "a")
    ensures Rekey("a", "c", "ab/x") == "c/../ab/x"
  {
    assert "ab/x"[..1] == "a";
    assert "ab/x"[1] != Sep;
    assert "ab/x"[..2] != "a" + [Sep];
    assert ParentLength("a") == 0 by {
      assert "a"[..0] == [];
    }
    assert "ab/x"[0..] == "ab/x";
  }

  // ---------------------------------------------------------------------
  // Actions

  /** `WatcherChangeTypes` of a `Changed` notification. */
  datatype ChangeType = Created | Deleted | Changed | Renamed

  /** One queued watcher action; paths are relative to the content directory. */
  datatype Action =
    | FileCreated(path: string)
    | FileChanged(change: ChangeType, path: string)
    | FileDeleted(path: string)
    | FileRenamed(oldPath: string, path: string)
    | DirCreated(path: string)
    | DirChanged(change: ChangeType, path: string)
    | DirDeleted(path: string)
    | DirRenamed(oldPath: string, path: string)

  /** The index after an action, and the number of entries a directory action updated (the logged count). */
  datatype Outcome = Done(ix: Index, count: nat) | Fault(ix: Index)

  /** The names a directory action selects: a plain string prefix test. */
  ghost function MatchedKeys(ix: Index, d: string): set<string>
  {
    set k | k in ix.entries && StartsWith(k, d)
  }

  /** What running one queued action does to the index. */
  function Step(ix: Index, a: Action, disk: Disk, md5: HashFn): Outcome
  {
    match a
    case FileCreated(p) =>
      // the size of a file that is already gone raises
      if p !in disk then Fault(ix) else Done(Put(ix, p, EntryOf(disk[p], md5)), 0)
    case FileChanged(c, p) =>
      if c != Changed || p !in disk then Done(ix, 0)
      else if p !in ix.entries then Fault(ix)
      else Done(Put(ix, p, ix.entries[p].(size := |disk[p].content|, hash := FileHash(disk[p], md5))), 0)
    case FileDeleted(p) =>
      Done(Delete(ix, p), 0)
    case FileRenamed(o, p) =>
      if o !in ix.entries then Fault(ix)
      else if p in Delete(ix, o).entries then Fault(Delete(ix, o))
      else Done(Put(Delete(ix, o), p, ix.entries[o]), 0)
    case DirCreated(_) => Done(ix, 0)
    case DirChanged(_, _) => Done(ix, 0)
    case DirDeleted(d) => DeleteUnder(ix, ix.keys, d, 0)
    case DirRenamed(o, n) => RenameUnder(ix, ix.keys, o, n, 0)
  }

  /** The directory-delete loop over a snapshot of the names. */
  function DeleteUnder(ix: Index, pending: seq<string>, d: string, count: nat): (r: Outcome)
    ensures r.Done?
    decreases |pending|
  {
    if pending == [] then Done(ix, count)
    else if StartsWith(pending[0], d) then DeleteUnder(Delete(ix, pending[0]), pending[1..], d, count + 1)
    else DeleteUnder(ix, pending[1..], d, count)
  }

  /** The directory-rename loop over a snapshot of the names. */
  function RenameUnder(ix: Index, pending: seq<string>, o: string, n: string, count: nat): Outcome
    decreases |pending|
  {
    if pending == [] then Done(ix, count)
    else
      var k := pending[0];
      if !StartsWith(k, o) then RenameUnder(ix, pending[1..], o, n, count)
      else if k !in ix.entries then Fault(ix)
      else
        var nk := Rekey(o, n, k);
        if nk in Delete(ix, k).entries then Fault(Delete(ix, k))
        else RenameUnder(Put(Delete(ix, k), nk, ix.entries[k]), pending[1..], o, n, count + 1)
  }

  /** The result of running a queue of actions in order. */
  datatype Replayed = Drained(ix: Index) | Crashed(ix: Index, rest: seq<Action>)

  /**
   * Runs the actions first to last; a fault stops the run, and `rest` are
   * the actions that never run because the process ends there.
   */
  function Replay(ix: Index, q: seq<Action>, disk: Disk, md5: HashFn): Replayed
    decreases |q|
  {
    if q == [] then Drained(ix)
    else match Step(ix, q[0], disk, md5)
      case Done(ix1, _) => Replay(ix1, q[1..], disk, md5)
      case Fault(ix1) => Crashed(ix1, q[1..])
  }

  // ---------------------------------------------------------------------
  // The index stays an ordered dictionary

  lemma {:induction false} DeleteUnderConsistent(ix: Index, pending: seq<string>, d: string, count: nat)
    requires Consistent(ix)
    ensures Consistent(DeleteUnder(ix, pending, d, count).ix)
    decreases |pending|
  {
    if pending != [] {
      if StartsWith(pending[0], d) {
        DeleteConsistent(ix, pending[0]);
        DeleteUnderConsistent(Delete(ix, pending[0]), pending[1..], d, count + 1);
      } else {
        DeleteUnderConsistent(ix, pending[1..], d, count);
      }
    }
  }

  lemma {:induction false} RenameUnderConsistent(ix: Index, pending: seq<string>, o: string, n: string, count: nat)
    requires Consistent(ix)
    ensures Consistent(RenameUnder(ix, pending, o, n, count).ix)
    decreases |pending|
  {
    if pending != [] {
      var k := pending[0];
      if !StartsWith(k, o) {
        RenameUnderConsistent(ix, pending[1..], o, n, count);
      } else if k in ix.entries {
        DeleteConsistent(ix, k);
        var nk := Rekey(o, n, k);
        if nk !in Delete(ix, k).entries {
          PutConsistent(Delete(ix, k), nk, ix.entries[k]);
          RenameUnderConsistent(Put(Delete(ix, k), nk, ix.entries[k]), pending[1..], o, n, count + 1);
        }
      }
    }
  }

  /** Every action, faulting or not, leaves an ordered dictionary behind. */
  lemma StepConsistent(ix: Index, a: Action, disk: Disk, md5: HashFn)
    requires Consistent(ix)
    ensures Consistent(Step(ix, a, disk, md5).ix)
  {
    match a
    case FileCreated(p) =>
      if p in disk { PutConsistent(ix, p, EntryOf(disk[p], md5)); }
    case FileChanged(c, p) =>
      if c == Changed && p in disk && p in ix.entries {
        PutConsistent(ix, p, ix.entries[p].(size := |disk[p].content|, hash := FileHash(disk[p], md5)));
      }
    case FileDeleted(p) =>
      DeleteConsistent(ix, p);
    case FileRenamed(o, p) =>
      if o in ix.entries {
        DeleteConsistent(ix, o);
        PutConsistent(Delete(ix, o), p, ix.entries[o]);
      }
    case DirCreated(_) =>
    case DirChanged(_, _) =>
    case DirDeleted(d) =>
      DeleteUnderConsistent(ix, ix.keys, d, 0);
    case DirRenamed(o, n) =>
      RenameUnderConsistent(ix, ix.keys, o, n, 0);
  }

  /** Replaying a queue keeps the index an ordered dictionary, also when it stops at a fault. */
  lemma {:induction false} ReplayConsistent(ix: Index, q: seq<Action>, disk: Disk, md5: HashFn)
    requires Consistent(ix)
    ensures Consistent(Replay(ix, q, disk, md5).ix)
    decreases |q|
  {
    if q != [] {
      StepConsistent(ix, q[0], disk, md5);
      if Step(ix, q[0], disk, md5).Done? {
        ReplayConsistent(Step(ix, q[0], disk, md5).ix, q[1..], disk, md5);
      }
    }
  }

  /** Actions run in the order they were queued: a queue is replayed as its first part, then the rest. */
  lemma {:induction false} ReplayAppend(ix: Index, q1: seq<Action>, q2: seq<Action>, disk: Disk, md5: HashFn)
    ensures Replay(ix, q1 + q2, disk, md5) ==
      match Replay(ix, q1, disk, md5)
      case Drained(ix1) => Replay(ix1, q2, disk, md5)
      case Crashed(ix1, rest) => Crashed(ix1, rest + q2)
    decreases |q1|
  {
    if q1 == [] {
      assert q1 + q2 == q2;
    } else {
      assert (q1 + q2)[0] == q1[0];
      assert (q1 + q2)[1..] == q1[1..] + q2;
      if Step(ix, q1[0], disk, md5).Done? {
        ReplayAppend(Step(ix, q1[0], disk, md5).ix, q1[1..], q2, disk, md5);
      }
    }
  }

  // ---------------------------------------------------------------------
  // What each action does

  /** A created file is indexed with its size, hash and "md5"; the action faults when the file is already gone. */
  lemma FileCreatedEffect(ix: Index, p: string, disk: Disk, md5: HashFn)
    ensures var r := Step(ix, FileCreated(p), disk, md5);
      && (r.Fault? <==> p !in disk)
      && (r.Done? ==>
            && p in r.ix.entries
            && r.ix.entries[p] == Entry(|disk[p].content|, FileHash(disk[p], md5), Md5)
            && (r.ix.entries[p].hash.Some? <==> disk[p].readable)
            && r.ix.keys == (if p in ix.entries then ix.keys else ix.keys + [p])
            && r.ix.entries.Keys == ix.entries.Keys + {p}
            && (forall k :: k != p && k in ix.entries ==> r.ix.entries[k] == ix.entries[k])
            && |r.ix.entries| == |ix.entries| + (if p in ix.entries then 0 else 1))
  {
  }

  /**
   * A change notification for an existing file refreshes its size and hash
   * and keeps its algorithm; other notifications, or a file that is gone,
   * change nothing; a file that is not indexed makes the action fault.
   */
  lemma FileChangedEffect(ix: Index, c: ChangeType, p: string, disk: Disk, md5: HashFn)
    ensures var r := Step(ix, FileChanged(c, p), disk, md5);
      && (r.Fault? <==> c == Changed && p in disk && p !in ix.entries)
      && (c != Changed || p !in disk ==> r == Done(ix, 0))
      && (r.Done? && c == Changed && p in disk ==>
            && r.ix.keys == ix.keys
            && r.ix.entries.Keys == ix.entries.Keys
            && r.ix.entries[p] == Entry(|disk[p].content|, FileHash(disk[p], md5), ix.entries[p].alg)
            && (forall k :: k != p && k in ix.entries ==> r.ix.entries[k] == ix.entries[k]))
  {
  }

  /** A deleted file leaves the index, and nothing else does. */
  lemma FileDeletedEffect(ix: Index, p: string, disk: Disk, md5: HashFn)
    requires Consistent(ix)
    ensures var r := Step(ix, FileDeleted(p), disk, md5);
      && r.Done?
      && r.ix.entries.Keys == ix.entries.Keys - {p}
      && (forall k :: k in r.ix.entries ==> r.ix.entries[k] == ix.entries[k])
      && |r.ix.entries| == |ix.entries| - (if p in ix.entries then 1 else 0)
  {
  }

  /**
   * Renaming a name that is not indexed faults, and so does renaming onto
   * another indexed name, after the old entry has already been removed.
   */
  lemma FileRenamedFaults(ix: Index, o: string, p: string, disk: Disk, md5: HashFn)
    requires Consistent(ix)
    ensures var r := Step(ix, FileRenamed(o, p), disk, md5);
      && (r.Fault? <==> o !in ix.entries || (p in ix.entries && p != o))
      && (o in ix.entries && p in ix.entries && p != o ==> r.ix.entries == ix.entries - {o})
  {
  }

  /**
   * Otherwise the renamed file's entry moves to the new name, last in order;
   * the other names keep their order and their values, and no entry is lost.
   */
  lemma FileRenamedMoves(ix: Index, o: string, p: string, disk: Disk, md5: HashFn)
    requires o in ix.entries && (p !in ix.entries || p == o)
    ensures var r := Step(ix, FileRenamed(o, p), disk, md5);
      && r.Done?
      && r.ix.keys == Erase(ix.keys, o) + [p]
      && r.ix.entries.Keys == ix.entries.Keys - {o} + {p}
      && r.ix.entries[p] == ix.entries[o]
      && (forall k :: k in ix.entries && k != o ==> r.ix.entries[k] == ix.entries[k])
      && |r.ix.entries| == |ix.entries|
  {
    RenamedFileStep(ix, o, p, disk, md5);
    MapMoveCard(ix.entries, o, p);
  }

  /** The rename step that succeeds appends the new name to the order without the old one. */
  lemma RenamedFileStep(ix: Index, o: string, p: string, disk: Disk, md5: HashFn)
    requires o in ix.entries && (p !in ix.entries || p == o)
    ensures Step(ix, FileRenamed(o, p), disk, md5)
      == Done(Index(Erase(ix.keys, o) + [p], (ix.entries - {o})[p := ix.entries[o]]), 0)
  {
    assert p !in Delete(ix, o).entries;
  }

  /** Moving the value at `o` to a name `p` that is free once `o` is gone keeps the size. */
  lemma MapMoveCard(m: map<string, Entry>, o: string, p: string)
    requires o in m && (p !in m || p == o)
    ensures |(m - {o})[p := m[o]]| == |m|
  {
    assert |m - {o}| == |m| - 1;
    assert p !in m - {o};
  }

  /** Directory notifications that are not deletions or renames leave the index alone. */
  lemma DirNoticeEffect(ix: Index, p: string, c: ChangeType, disk: Disk, md5: HashFn)
    ensures Step(ix, DirCreated(p), disk, md5) == Done(ix, 0)
    ensures Step(ix, DirChanged(c, p), disk, md5) == Done(ix, 0)
  {
  }

  /** Set bookkeeping for one visited name `k` that matches. */
  lemma VisitMatched(m: set<string>, e: set<string>, t: set<string>, k: string)
    requires k in m && e == {k} + t && k !in t
    ensures m - t == (m - e) + {k}
    ensures m * e == (m * t) + {k} && k !in m * t
  {
  }

  /** Set bookkeeping for one visited name `k` that does not match. */
  lemma VisitUnmatched(m: set<string>, e: set<string>, t: set<string>, k: string)
    requires k !in m && e == {k} + t
    ensures m - t == m - e
    ensures m * e == m * t
  {
  }

  lemma RemoveOneMore(a: map<string, Entry>, b: map<string, Entry>, gone: set<string>, k: string)
    requires b == a - gone
    ensures b - {k} == a - (gone + {k})
  {
  }

  lemma {:induction false} DeleteUnderEffect(ix0: Index, d: string, pending: seq<string>, cur: Index, count: nat)
    requires Distinct(pending) && Elems(pending) <= ix0.entries.Keys
    requires cur.entries == ix0.entries - (MatchedKeys(ix0, d) - Elems(pending))
    ensures var r := DeleteUnder(cur, pending, d, count);
      && r.ix.entries == ix0.entries - MatchedKeys(ix0, d)
      && r.count == count + |MatchedKeys(ix0, d) * Elems(pending)|
    decreases |pending|
  {
    var m := MatchedKeys(ix0, d);
    if pending == [] {
      assert m - Elems(pending) == m;
    } else {
      var k := pending[0];
      var tail := pending[1..];
      assert pending == [k] + tail;
      assert Elems(pending) == {k} + Elems(tail);
      HeadNotInTail(pending);
      if StartsWith(k, d) {
        assert k in m;
        VisitMatched(m, Elems(pending), Elems(tail), k);
        RemoveOneMore(ix0.entries, cur.entries, m - Elems(pending), k);
        assert DeleteUnder(cur, pending, d, count) == DeleteUnder(Delete(cur, k), tail, d, count + 1);
        DeleteUnderEffect(ix0, d, tail, Delete(cur, k), count + 1);
      } else {
        assert k !in m;
        VisitUnmatched(m, Elems(pending), Elems(tail), k);
        assert DeleteUnder(cur, pending, d, count) == DeleteUnder(cur, tail, d, count);
        DeleteUnderEffect(ix0, d, tail, cur, count);
      }
    }
  }

  /**
   * Deleting a directory removes every indexed name that starts with the
   * directory's path as a string, keeps the other entries as they were, and
   * reports how many it removed.  A sibling such as "ab/x" for directory "a"
   * is removed too.
   */
  lemma DirDeletedEffect(ix: Index, d: string, disk: Disk, md5: HashFn)
    requires Consistent(ix)
    ensures var r := Step(ix, DirDeleted(d), disk, md5);
      && r.Done?
      && (forall k :: k in r.ix.entries <==> k in ix.entries && !StartsWith(k, d))
      && (forall k :: k in r.ix.entries ==> r.ix.entries[k] == ix.entries[k])
      && r.count == |MatchedKeys(ix, d)|
      && |r.ix.entries| == |ix.entries| - r.count
  {
    var m := MatchedKeys(ix, d);
    assert Step(ix, DirDeleted(d), disk, md5) == DeleteUnder(ix, ix.keys, d, 0);
    DeleteAll(ix, d);
    MapMinusCard(ix.entries, m);
  }

  /** The directory-delete loop over all the names removes exactly the matched ones. */
  lemma DeleteAll(ix: Index, d: string)
    requires Consistent(ix)
    ensures var r := DeleteUnder(ix, ix.keys, d, 0);
      r.ix.entries == ix.entries - MatchedKeys(ix, d) && r.count == |MatchedKeys(ix, d)|
  {
    var m := MatchedKeys(ix, d);
    assert Elems(ix.keys) == ix.entries.Keys;
    assert m - Elems(ix.keys) == {};
    assert ix.entries - {} == ix.entries;
    DeleteUnderEffect(ix, d, ix.keys, ix, 0);
    assert m * Elems(ix.keys) == m;
  }

  lemma MapMinusCard(a: map<string, Entry>, m: set<string>)
    requires m <= a.Keys
    ensures (a - m).Keys == a.Keys - m
    ensures |a - m| == |a| - |m|
  {
    assert (a - m).Keys == a.Keys - m;
    assert a.Keys == (a.Keys - m) + m;
  }

  /** The new names of the already moved entries of a directory rename. */
  ghost function Moved(o: string, n: string, done: set<string>): set<string>
    requires forall k :: k in done ==> StartsWith(k, o)
  {
    set k | k in done :: Rekey(o, n, k)
  }

  /** The new names of a directory rename are all different and none is taken by another indexed name. */
  ghost predicate NoClash(ix: Index, o: string, n: string)
  {
    && (forall k1, k2 :: k1 in MatchedKeys(ix, o) && k2 in MatchedKeys(ix, o) && Rekey(o, n, k1) == Rekey(o, n, k2) ==> k1 == k2)
    && (forall k :: k in MatchedKeys(ix, o) && Rekey(o, n, k) in ix.entries ==> Rekey(o, n, k) == k)
  }

  /** The index part-way through a clash-free directory rename, with the entries of `done` moved. */
  ghost predicate RenamedState(ix0: Index, o: string, n: string, done: set<string>, cur: map<string, Entry>)
  {
    && done <= MatchedKeys(ix0, o)
    && cur.Keys == (ix0.entries.Keys - done) + Moved(o, n, done)
    && (forall k :: k in ix0.entries && k !in done ==> k in cur && cur[k] == ix0.entries[k])
    && (forall k :: k in done ==> Rekey(o, n, k) in cur && cur[Rekey(o, n, k)] == ix0.entries[k])
  }

  /** Before a matched entry moves: it is still in place, and no moved entry sits on its old or new name. */
  lemma RenameFree(ix0: Index, o: string, n: string, done: set<string>, cur: map<string, Entry>, k: string)
    requires NoClash(ix0, o, n)
    requires RenamedState(ix0, o, n, done, cur)
    requires k in MatchedKeys(ix0, o) && k !in done
    ensures k in cur && cur[k] == ix0.entries[k]
    ensures forall j :: j in done ==> Rekey(o, n, j) != k && Rekey(o, n, j) != Rekey(o, n, k)
    ensures Rekey(o, n, k) !in cur - {k}
  {
    var nk := Rekey(o, n, k);
    forall j | j in done ensures Rekey(o, n, j) != k && Rekey(o, n, j) != nk {
      if Rekey(o, n, j) in ix0.entries {
        assert Rekey(o, n, j) == j;
      }
    }
    if nk in ix0.entries {
      assert nk == k;
    }
  }

  /** After one matched entry moves, the names are the unmoved ones plus the new names. */
  lemma RenameOneKeys(ix0: Index, o: string, n: string, done: set<string>, cur: map<string, Entry>, k: string)
    requires NoClash(ix0, o, n)
    requires RenamedState(ix0, o, n, done, cur)
    requires k in MatchedKeys(ix0, o) && k !in done
    ensures var next := (cur - {k})[Rekey(o, n, k) := ix0.entries[k]];
      next.Keys == (ix0.entries.Keys - (done + {k})) + Moved(o, n, done + {k})
  {
    RenameFree(ix0, o, n, done, cur, k);
    MovedOneMore(o, n, done, k);
    assert k !in Moved(o, n, done);
    SwapKey(ix0.entries.Keys, done, Moved(o, n, done), cur, k, Rekey(o, n, k), ix0.entries[k]);
  }

  lemma MovedOneMore(o: string, n: string, done: set<string>, k: string)
    requires forall j :: j in done ==> StartsWith(j, o)
    requires StartsWith(k, o)
    ensures Moved(o, n, done + {k}) == Moved(o, n, done) + {Rekey(o, n, k)}
  {
  }

  /** Set bookkeeping for moving one name `k` of `all - done` to `nk`. */
  lemma SwapKey(all: set<string>, done: set<string>, moved: set<string>, cur: map<string, Entry>, k: string, nk: string, e: Entry)
    requires cur.Keys == (all - done) + moved
    requires k in all && k !in done && k !in moved
    ensures ((cur - {k})[nk := e]).Keys == (all - (done + {k})) + (moved + {nk})
  {
  }

  /** After one matched entry moves, the unmoved entries are untouched. */
  lemma RenameOneKeeps(ix0: Index, o: string, n: string, done: set<string>, cur: map<string, Entry>, k: string)
    requires NoClash(ix0, o, n)
    requires RenamedState(ix0, o, n, done, cur)
    requires k in MatchedKeys(ix0, o) && k !in done
    ensures var next := (cur - {k})[Rekey(o, n, k) := ix0.entries[k]];
      forall j :: j in ix0.entries && j !in done + {k} ==> j in next && next[j] == ix0.entries[j]
  {
    RenameFree(ix0, o, n, done, cur, k);
    var next := (cur - {k})[Rekey(o, n, k) := ix0.entries[k]];
    forall j | j in ix0.entries && j !in done + {k} ensures j in next && next[j] == ix0.entries[j] {
      assert j in cur - {k};
    }
  }

  /** After one matched entry moves, every moved entry sits at its new name. */
  lemma RenameOneMoves(ix0: Index, o: string, n: string, done: set<string>, cur: map<string, Entry>, k: string)
    requires NoClash(ix0, o, n)
    requires RenamedState(ix0, o, n, done, cur)
    requires k in MatchedKeys(ix0, o) && k !in done
    ensures var next := (cur - {k})[Rekey(o, n, k) := ix0.entries[k]];
      forall j :: j in done + {k} ==> Rekey(o, n, j) in next && next[Rekey(o, n, j)] == ix0.entries[j]
  {
    RenameFree(ix0, o, n, done, cur, k);
    var next := (cur - {k})[Rekey(o, n, k) := ix0.entries[k]];
    forall j | j in done + {k} ensures Rekey(o, n, j) in next && next[Rekey(o, n, j)] == ix0.entries[j] {
      if j != k {
        assert Rekey(o, n, j) in cur - {k};
      }
    }
  }

  /** One matched entry moved: the state advances by that entry. */
  lemma RenameOne(ix0: Index, o: string, n: string, done: set<string>, cur: map<string, Entry>, k: string)
    requires NoClash(ix0, o, n)
    requires RenamedState(ix0, o, n, done, cur)
    requires k in MatchedKeys(ix0, o) && k !in done
    ensures k in cur && Rekey(o, n, k) !in cur - {k}
    ensures RenamedState(ix0, o, n, done + {k}, (cur - {k})[Rekey(o, n, k) := ix0.entries[k]])
  {
    RenameFree(ix0, o, n, done, cur, k);
    RenameOneKeys(ix0, o, n, done, cur, k);
    RenameOneKeeps(ix0, o, n, done, cur, k);
    RenameOneMoves(ix0, o, n, done, cur, k);
  }

  /** The bookkeeping of one step of a loop over a snapshot without repeats. */
  lemma PendingStep(m: set<string>, pending: seq<string>)
    requires Distinct(pending) && pending != []
    ensures Distinct(pending[1..])
    ensures pending[0] in m ==> m - Elems(pending[1..]) == (m - Elems(pending)) + {pending[0]}
    ensures pending[0] in m ==> |m * Elems(pending)| == |m * Elems(pending[1..])| + 1
    ensures pending[0] !in m ==> m - Elems(pending[1..]) == m - Elems(pending)
    ensures pending[0] !in m ==> m * Elems(pending) == m * Elems(pending[1..])
  {
    var k := pending[0];
    var tail := pending[1..];
    assert pending == [k] + tail;
    assert Elems(pending) == {k} + Elems(tail);
    HeadNotInTail(pending);
    if k in m {
      assert m * Elems(pending) == (m * Elems(tail)) + {k};
      assert k !in m * Elems(tail);
    }
  }

  lemma {:induction false} RenameUnderEffect(ix0: Index, o: string, n: string, pending: seq<string>, cur: Index, count: nat)
    requires NoClash(ix0, o, n)
    requires Distinct(pending) && Elems(pending) <= ix0.entries.Keys
    requires RenamedState(ix0, o, n, MatchedKeys(ix0, o) - Elems(pending), cur.entries)
    ensures var r := RenameUnder(cur, pending, o, n, count);
      && r.Done?
      && r.count == count + |MatchedKeys(ix0, o) * Elems(pending)|
      && RenamedState(ix0, o, n, MatchedKeys(ix0, o), r.ix.entries)
    decreases |pending|
  {
    var m := MatchedKeys(ix0, o);
    if pending == [] {
      assert m - Elems(pending) == m;
    } else {
      var k := pending[0];
      var tail := pending[1..];
      assert k in ix0.entries;
      PendingStep(m, pending);
      if !StartsWith(k, o) {
        assert k !in m;
        RenameUnderEffect(ix0, o, n, tail, cur, count);
      } else {
        assert k in m;
        var done := m - Elems(pending);
        RenameOne(ix0, o, n, done, cur.entries, k);
        var nk := Rekey(o, n, k);
        var next := Put(Delete(cur, k), nk, cur.entries[k]);
        assert next.entries == (cur.entries - {k})[nk := ix0.entries[k]];
        assert RenameUnder(cur, pending, o, n, count) == RenameUnder(next, tail, o, n, count + 1);
        RenameUnderEffect(ix0, o, n, tail, next, count + 1);
      }
    }
  }

  /** No two names of `s` get the same new name. */
  ghost predicate RekeyInjective(o: string, n: string, s: set<string>)
  {
    forall k1, k2 ::
      k1 in s && k2 in s && StartsWith(k1, o) && StartsWith(k2, o) && Rekey(o, n, k1) == Rekey(o, n, k2) ==> k1 == k2
  }

  lemma {:induction false} RekeyImageCard(o: string, n: string, s: set<string>)
    requires forall k :: k in s ==> StartsWith(k, o)
    requires RekeyInjective(o, n, s)
    ensures |Moved(o, n, s)| == |s|
    decreases |s|
  {
    if s != {} {
      var k :| k in s;
      var t := s - {k};
      RekeyImageCard(o, n, t);
      var nk := Rekey(o, n, k);
      assert Moved(o, n, s) == Moved(o, n, t) + {nk} by {
        forall x | x in Moved(o, n, s) ensures x in Moved(o, n, t) + {nk} {
          var j :| j in s && x == Rekey(o, n, j);
          if j != k {
            assert j in t;
          }
        }
      }
      assert nk !in Moved(o, n, t) by {
        forall j | j in t ensures Rekey(o, n, j) != nk {
          assert j in s && j != k;
        }
      }
    }
  }

  /** Without clashes, the moved names are as many as the matched ones. */
  lemma MovedCard(ix: Index, o: string, n: string, s: set<string>)
    requires NoClash(ix, o, n) && s <= MatchedKeys(ix, o)
    ensures |Moved(o, n, s)| == |s|
  {
    RekeyImageCard(o, n, s);
  }

  /**
   * Renaming a directory without clashes moves every matched entry to its
   * rebased name with its value unchanged, keeps every other entry, and
   * reports how many it moved.
   */
  lemma DirRenamedEffect(ix: Index, o: string, n: string, disk: Disk, md5: HashFn)
    requires Consistent(ix) && NoClash(ix, o, n)
    ensures var r := Step(ix, DirRenamed(o, n), disk, md5);
      && r.Done?
      && r.count == |MatchedKeys(ix, o)|
      && r.ix.entries.Keys == (ix.entries.Keys - MatchedKeys(ix, o)) + Moved(o, n, MatchedKeys(ix, o))
      && (forall k :: k in ix.entries && !StartsWith(k, o) ==> k in r.ix.entries && r.ix.entries[k] == ix.entries[k])
      && (forall k :: k in MatchedKeys(ix, o) ==> Rekey(o, n, k) in r.ix.entries && r.ix.entries[Rekey(o, n, k)] == ix.entries[k])
  {
    assert Step(ix, DirRenamed(o, n), disk, md5) == RenameUnder(ix, ix.keys, o, n, 0);
    RenameAll(ix, o, n);
  }

  /** The directory-rename loop over all the names moves every matched entry. */
  lemma RenameAll(ix: Index, o: string, n: string)
    requires Consistent(ix) && NoClash(ix, o, n)
    ensures var r := RenameUnder(ix, ix.keys, o, n, 0);
      && r.Done?
      && r.count == |MatchedKeys(ix, o)|
      && RenamedState(ix, o, n, MatchedKeys(ix, o), r.ix.entries)
  {
    var m := MatchedKeys(ix, o);
    SnapshotCovers(ix, m);
    RenamedStart(ix, o, n);
    RenameUnderEffect(ix, o, n, ix.keys, ix, 0);
  }

  /** A snapshot of the names of a consistent index covers any set of its names. */
  lemma SnapshotCovers(ix: Index, m: set<string>)
    requires Consistent(ix) && m <= ix.entries.Keys
    ensures Elems(ix.keys) == ix.entries.Keys
    ensures m - Elems(ix.keys) == {} && m * Elems(ix.keys) == m
  {
    assert Elems(ix.keys) == ix.entries.Keys;
  }

  /** Before the loop nothing has moved. */
  lemma RenamedStart(ix: Index, o: string, n: string)
    ensures RenamedState(ix, o, n, {}, ix.entries)
  {
    assert Moved(o, n, {}) == {};
  }

  /** A clash-free directory rename loses no entry. */
  lemma DirRenamedKeepsCount(ix: Index, o: string, n: string, disk: Disk, md5: HashFn)
    requires Consistent(ix) && NoClash(ix, o, n)
    ensures var r := Step(ix, DirRenamed(o, n), disk, md5);
      r.Done? && |r.ix.entries| == |ix.entries|
  {
    DirRenamedEffect(ix, o, n, disk, md5);
    var m := MatchedKeys(ix, o);
    MovedCard(ix, o, n, m);
    var rest := ix.entries.Keys - m;
    forall x | x in Moved(o, n, m) ensures x !in rest {
      var k :| k in m && Rekey(o, n, k) == x;
      if x in ix.entries {
        assert x == k;
      }
    }
    assert |rest| == |ix.entries| - |m| by {
      assert ix.entries.Keys == rest + m;
    }
    assert |rest + Moved(o, n, m)| == |rest| + |Moved(o, n, m)| by {
      assert rest * Moved(o, n, m) == {};
    }
  }

  /** A rename onto a directory whose files are already indexed faults. */
  lemma DirRenamedOntoIndexed(e: Entry, disk: Disk, md5: HashFn)
    ensures Step(Index(["a/x", "b/x"], map["a/x" := e, "b/x" := e]), DirRenamed("a", "b"), disk, md5).Fault?
  {
    var ix := Index(["a/x", "b/x"], map["a/x" := e, "b/x" := e]);
    RekeyDescendant("a", "b", "x");
    assert "a/x" == "a" + [Sep] + "x";
    assert "b/x" == "b" + [Sep] + "x";
    assert Delete(ix, "a/x").entries == map["b/x" := e];
  }
}
