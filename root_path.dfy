/** `root_path`: walk up from a start directory to the nearest directory that
    holds the sentinel file `.gitignore`.

    A path is the sequence of its segments below the top of the tree (`/` for
    an absolute path, `.` for a relative one); the top is the empty sequence.
    Which directories hold the sentinel is supplied by the caller as a set. */
module RootPath {
  import opened Wrappers

  type Path = seq<string>

  /** `Path.parent`: drop the last segment; the top is its own parent. */
  function Parent(p: Path): (q: Path)
    ensures q == p <==> p == []
    ensures p != [] ==> q + [p[|p| - 1]] == p
  {
    if p == [] then [] else p[..|p| - 1]
  }

  /** `q` is the directory the search should find from `p`: an ancestor of
      `p` (or `p` itself) holding the sentinel, with no directory between it
      and `p` holding one. */
  ghost predicate IsNearestMarked(p: Path, marked: set<Path>, q: Path)
  {
    && q <= p
    && q in marked
    && forall i :: |q| < i <= |p| ==> p[..i] !in marked
  }

  /** No ancestor of `p`, `p` included, holds the sentinel. */
  ghost predicate NoneMarked(p: Path, marked: set<Path>)
  {
    forall i :: 0 <= i <= |p| ==> p[..i] !in marked
  }

  /** The recursive helper `go`. Where the source recurses at the top (the
      top is its own parent) until Python raises RecursionError, the model
      fails with RootNotFound. */
  function Go(p: Path, marked: set<Path>): (r: Result<Path, Error>)
    ensures r.Success? ==> IsNearestMarked(p, marked, r.value)
    ensures r.Failure? <==> NoneMarked(p, marked)
    ensures r.Failure? ==> r.error == RootNotFound
    decreases |p|
  {
    assert p[..|p|] == p;
    if p in marked then Success(p)
    else if Parent(p) == p then Failure(RootNotFound)
    else
      assert forall i :: 0 <= i < |p| ==> p[..i] == Parent(p)[..i];
      Go(Parent(p), marked)
  }

  /** `root_path(path)`: start from `path` when given, else from the working
      directory `cwd`. */
  function Find(path: Option<Path>, cwd: Path, marked: set<Path>): (r: Result<Path, Error>)
    ensures var start := if path.Some? then path.value else cwd;
      && (start in marked ==> r == Success(start))
      && (r.Success? ==> IsNearestMarked(start, marked, r.value))
      && (r.Failure? <==> NoneMarked(start, marked))
  {
    Go(if path.Some? then path.value else cwd, marked)
  }

  /** At most one directory is the nearest marked one. */
  lemma {:induction false} NearestMarkedUnique(p: Path, marked: set<Path>, q1: Path, q2: Path)
    requires IsNearestMarked(p, marked, q1) && IsNearestMarked(p, marked, q2)
    ensures q1 == q2
  {
    assert q1 == p[..|q1|] && q2 == p[..|q2|];
  }

  /** The search succeeds with `q` exactly when `q` is the nearest marked
      ancestor-or-self of the start. */
  lemma GoFindsExactlyNearest(p: Path, marked: set<Path>, q: Path)
    ensures Go(p, marked) == Success(q) <==> IsNearestMarked(p, marked, q)
  {
    if IsNearestMarked(p, marked, q) {
      if Go(p, marked).Success? {
        NearestMarkedUnique(p, marked, Go(p, marked).value, q);
      } else {
        assert p[..|q|] == q;
      }
    }
  }

  /** Nothing is found exactly when no ancestor-or-self holds the sentinel. */
  lemma NoneMarkedHasNoNearest(p: Path, marked: set<Path>)
    ensures NoneMarked(p, marked) <==> forall q :: !IsNearestMarked(p, marked, q)
  {
    if NoneMarked(p, marked) {
      forall q | q <= p ensures !IsNearestMarked(p, marked, q) {
        assert p[..|q|] == q;
      }
    } else {
      assert IsNearestMarked(p, marked, Go(p, marked).value);
    }
  }

  /** A start directory that holds no sentinel gives the same answer as its
      parent: the nearest proper ancestor holding one. */
  lemma {:induction false} UnmarkedStartDefersToParent(p: Path, marked: set<Path>)
    requires p != [] && p !in marked
    ensures Go(p, marked) == Go(Parent(p), marked)
    ensures Go(p, marked).Success? ==> Go(p, marked).value < p
  {
  }

  // ---------------------------------------------------------------------
  // `go` as written: no base case for the top of the tree

  /** The helper as the source writes it, with Python's recursion limit as
      `depth`: `None` stands for the RecursionError raised when the depth
      runs out. At the top, `Path.parent` returns the same path, so the
      recursion makes no progress there. */
  function GoAsWritten(p: Path, marked: set<Path>, depth: nat): Option<Path>
    decreases depth
  {
    if depth == 0 then None
    else if p in marked then Some(p)
    else GoAsWritten(Parent(p), marked, depth - 1)
  }

  /** With no sentinel on the way up, no recursion limit is ever enough:
      the helper as written only ends in RecursionError. */
  lemma {:induction false} AsWrittenNeverFindsNothing(p: Path, marked: set<Path>, depth: nat)
    requires NoneMarked(p, marked)
    ensures GoAsWritten(p, marked, depth) == None
    decreases depth
  {
    if depth > 0 {
      assert p[..|p|] == p;
      assert forall i :: 0 <= i <= |Parent(p)| ==> Parent(p)[..i] == p[..i];
      AsWrittenNeverFindsNothing(Parent(p), marked, depth - 1);
    }
  }

  /** When a sentinel exists and the recursion limit exceeds the depth of
      the start, the helper as written and `Go` agree. */
  lemma {:induction false} AsWrittenAgreesWhenFound(p: Path, marked: set<Path>, depth: nat)
    requires Go(p, marked).Success? && depth > |p|
    ensures GoAsWritten(p, marked, depth) == Some(Go(p, marked).value)
    decreases |p|
  {
    if p !in marked {
      AsWrittenAgreesWhenFound(Parent(p), marked, depth - 1);
    }
  }
}
