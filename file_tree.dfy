/**
 * The content directory as a tree of names, and the server's recursive
 * enumeration of the relative paths of all files in it (`EnumerateFilesDeep`).
 * Paths are joined with `Combine`, a separator-based model of
 * `Path.Combine` with '/' as the separator.
 */
module FileTree {

  const Sep: char := '/'

  /** `Path.Combine(a, b)`: `b` alone when `a` is empty or `b` is rooted. */
  function Combine(a: string, b: string): string
  {
    if a == "" then b
    else if b == "" then a
    else if b[0] == Sep then b
    else if a[|a| - 1] == Sep then a + b
    else a + [Sep] + b
  }

  /** A directory: its name, its files' names and its subdirectories, in enumeration order. */
  datatype Node = Dir(name: string, files: seq<string>, subdirs: seq<Node>)

  /** A file or directory name: one path segment. */
  predicate NameOk(n: string)
  {
    n != "" && Sep !in n
  }

  /** What a real directory listing guarantees: segment names, unique among siblings of a kind. */
  ghost predicate WellFormed(d: Node)
    decreases d
  {
    && (forall i :: 0 <= i < |d.files| ==> NameOk(d.files[i]))
    && (forall i :: 0 <= i < |d.subdirs| ==> NameOk(d.subdirs[i].name) && WellFormed(d.subdirs[i]))
    && (forall i, j :: 0 <= i < j < |d.files| ==> d.files[i] != d.files[j])
    && (forall i, j :: 0 <= i < j < |d.subdirs| ==> d.subdirs[i].name != d.subdirs[j].name)
  }

  ghost predicate Distinct(s: seq<string>)
  {
    forall i, j :: 0 <= i < j < |s| ==> s[i] != s[j]
  }

  /** The paths of a directory's own files under `prefix`. */
  function FilePaths(names: seq<string>, prefix: string): seq<string>
  {
    seq(|names|, i requires 0 <= i < |names| => Combine(prefix, names[i]))
  }

  /** The enumeration order: a directory's own files, then each subdirectory's files in turn. */
  function Listing(d: Node, prefix: string): seq<string>
    decreases d, |d.subdirs| + 1
  {
    FilePaths(d.files, prefix) + SubListing(d, 0, prefix)
  }

  /** The files of subdirectories `j..` of `d`. */
  function SubListing(d: Node, j: nat, prefix: string): seq<string>
    requires j <= |d.subdirs|
    decreases d, |d.subdirs| - j
  {
    if j == |d.subdirs| then []
    else Listing(d.subdirs[j], Combine(prefix, d.subdirs[j].name)) + SubListing(d, j + 1, prefix)
  }

  /**
   * `EnumerateFilesDeep(dir, paths, prefix)`: appends the relative path of
   * every file under `d` to the list `paths`, own files first.
   */
  method EnumerateFilesDeep(d: Node, paths: seq<string>, prefix: string) returns (r: seq<string>)
    ensures r == paths + Listing(d, prefix)
    decreases d
  {
    r := paths;
    for i := 0 to |d.files|
      invariant r == paths + FilePaths(d.files[..i], prefix)
    {
      FilePathsSnoc(d.files, i, prefix);
      r := r + [Combine(prefix, d.files[i])];
    }
    assert d.files[..|d.files|] == d.files;
    assert r + SubListing(d, 0, prefix) == paths + Listing(d, prefix);
    for j := 0 to |d.subdirs|
      invariant r + SubListing(d, j, prefix) == paths + Listing(d, prefix)
    {
      var sub := d.subdirs[j];
      var before := r;
      r := EnumerateFilesDeep(sub, r, Combine(prefix, sub.name));
      SubListingStep(before, d, j, prefix);
    }
  }

  /** One more own file listed. */
  lemma FilePathsSnoc(names: seq<string>, i: nat, prefix: string)
    requires i < |names|
    ensures FilePaths(names[..i + 1], prefix) == FilePaths(names[..i], prefix) + [Combine(prefix, names[i])]
  {
  }

  /** The files of subdirectory `j` come right before those of the later subdirectories. */
  lemma SubListingStep(before: seq<string>, d: Node, j: nat, prefix: string)
    requires j < |d.subdirs|
    ensures before + SubListing(d, j, prefix)
      == (before + Listing(d.subdirs[j], Combine(prefix, d.subdirs[j].name))) + SubListing(d, j + 1, prefix)
  {
  }

  // ---------------------------------------------------------------------------
  // Every file is listed exactly once

  /** What `Combine(prefix, name)` puts before a segment name. */
  function Base(prefix: string): string
  {
    if prefix == "" then "" else if prefix[|prefix| - 1] == Sep then prefix else prefix + [Sep]
  }

  lemma CombineSegment(prefix: string, n: string)
    requires NameOk(n)
    ensures Combine(prefix, n) == Base(prefix) + n
  {
    assert n[0] in n;
  }

  /** `p.StartsWith(b)`: plain string prefix, no notion of path segments. */
  predicate StartsWith(p: string, b: string)
  {
    |b| <= |p| && p[..|b|] == b
  }

  /** A path inside the subdirectory `n` of the directory whose paths begin with `b`. */
  ghost predicate Inside(p: string, b: string, n: string)
  {
    StartsWith(p, b + n + [Sep])
  }

  lemma BaseOfChild(prefix: string, n: string)
    requires NameOk(n)
    ensures Base(Combine(prefix, n)) == Base(prefix) + n + [Sep]
  {
    CombineSegment(prefix, n);
    var c := Base(prefix) + n;
    assert c[|c| - 1] == n[|n| - 1];
    assert n[|n| - 1] in n;
  }

  lemma {:induction false} ListingUnderBase(d: Node, prefix: string)
    requires WellFormed(d)
    ensures forall p :: p in Listing(d, prefix) ==> StartsWith(p, Base(prefix))
    decreases d, |d.subdirs| + 1
  {
    forall p | p in FilePaths(d.files, prefix) ensures StartsWith(p, Base(prefix)) {
      var i :| 0 <= i < |d.files| && p == Combine(prefix, d.files[i]);
      CombineSegment(prefix, d.files[i]);
    }
    SubListingInside(d, 0, prefix);
    forall p | p in SubListing(d, 0, prefix) ensures StartsWith(p, Base(prefix)) {
      var k :| 0 <= k < |d.subdirs| && Inside(p, Base(prefix), d.subdirs[k].name);
      var b := Base(prefix) + d.subdirs[k].name + [Sep];
      assert b[..|Base(prefix)|] == Base(prefix);
    }
  }

  lemma {:induction false} SubListingInside(d: Node, j: nat, prefix: string)
    requires WellFormed(d) && j <= |d.subdirs|
    ensures forall p :: p in SubListing(d, j, prefix) ==>
      exists k :: j <= k < |d.subdirs| && Inside(p, Base(prefix), d.subdirs[k].name)
    decreases d, |d.subdirs| - j
  {
    if j < |d.subdirs| {
      var sub := d.subdirs[j];
      ListingUnderBase(sub, Combine(prefix, sub.name));
      BaseOfChild(prefix, sub.name);
      SubListingInside(d, j + 1, prefix);
    }
  }

  /** Paths in two differently named subdirectories differ. */
  lemma InsideDifferent(p: string, q: string, b: string, n1: string, n2: string)
    requires NameOk(n1) && NameOk(n2) && n1 != n2
    requires Inside(p, b, n1) && Inside(q, b, n2)
    ensures p != q
  {
    if |n1| == |n2| {
      var i :| 0 <= i < |n1| && n1[i] != n2[i];
      assert p[|b| + i] == n1[i];
      assert q[|b| + i] == n2[i];
    } else if |n1| < |n2| {
      assert p[|b| + |n1|] == Sep;
      assert q[|b| + |n1|] == n2[|n1|];
      assert n2[|n1|] in n2;
    } else {
      assert q[|b| + |n2|] == Sep;
      assert p[|b| + |n2|] == n1[|n2|];
      assert n1[|n2|] in n1;
    }
  }

  /** A file's own path differs from every path inside a subdirectory of the same directory. */
  lemma FileNotInside(f: string, q: string, b: string, n: string)
    requires NameOk(f) && NameOk(n) && Inside(q, b, n)
    ensures b + f != q
  {
    if |f| > |n| {
      assert (b + f)[|b| + |n|] == f[|n|];
      assert f[|n|] in f;
      assert q[|b| + |n|] == Sep;
    } else {
      assert |b + f| < |q|;
    }
  }

  lemma DistinctConcat(a: seq<string>, b: seq<string>)
    requires Distinct(a) && Distinct(b)
    requires forall x, y :: x in a && y in b ==> x != y
    ensures Distinct(a + b)
  {
    forall i, j | 0 <= i < j < |a + b| ensures (a + b)[i] != (a + b)[j] {
      if j < |a| {
      } else if i >= |a| {
        assert (a + b)[i] == b[i - |a|] && (a + b)[j] == b[j - |a|];
      } else {
        assert (a + b)[i] in a && (a + b)[j] in b;
      }
    }
  }

  lemma {:induction false} SubListingDistinct(d: Node, j: nat, prefix: string)
    requires WellFormed(d) && j <= |d.subdirs|
    ensures Distinct(SubListing(d, j, prefix))
    decreases d, |d.subdirs| - j
  {
    if j < |d.subdirs| {
      var sub := d.subdirs[j];
      var here := Listing(sub, Combine(prefix, sub.name));
      ListingDistinct(sub, Combine(prefix, sub.name));
      SubListingDistinct(d, j + 1, prefix);
      ListingUnderBase(sub, Combine(prefix, sub.name));
      BaseOfChild(prefix, sub.name);
      SubListingInside(d, j + 1, prefix);
      var rest := SubListing(d, j + 1, prefix);
      forall x, y | x in here && y in rest ensures x != y {
        var k :| j + 1 <= k < |d.subdirs| && Inside(y, Base(prefix), d.subdirs[k].name);
        InsideDifferent(x, y, Base(prefix), sub.name, d.subdirs[k].name);
      }
      DistinctConcat(here, rest);
    }
  }

  /** `EnumerateFilesDeep` never lists a path twice. */
  lemma {:induction false} ListingDistinct(d: Node, prefix: string)
    requires WellFormed(d)
    ensures Distinct(Listing(d, prefix))
    decreases d, |d.subdirs| + 1
  {
    var own := FilePaths(d.files, prefix);
    forall i | 0 <= i < |d.files| ensures own[i] == Base(prefix) + d.files[i] {
      CombineSegment(prefix, d.files[i]);
    }
    forall i, j | 0 <= i < j < |own| ensures own[i] != own[j] {
      assert d.files[i] != d.files[j];
      assert own[i][|Base(prefix)|..] == d.files[i];
      assert own[j][|Base(prefix)|..] == d.files[j];
    }
    SubListingDistinct(d, 0, prefix);
    SubListingInside(d, 0, prefix);
    forall x, y | x in own && y in SubListing(d, 0, prefix) ensures x != y {
      var i :| 0 <= i < |d.files| && x == own[i];
      var k :| 0 <= k < |d.subdirs| && Inside(y, Base(prefix), d.subdirs[k].name);
      FileNotInside(d.files[i], y, Base(prefix), d.subdirs[k].name);
    }
    DistinctConcat(own, SubListing(d, 0, prefix));
  }
}
