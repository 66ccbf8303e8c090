/** The per-directory branch cache with expiry (src/git.rs), one thread's copy of it. */
module BranchCache {
  import opened Wrappers

  type Dir = string

  /** Instants and durations, in nanoseconds of a monotonic clock. */
  type Time = nat

  const CACHE_TTL: Time := 30_000_000_000

  datatype BranchInfo = Branch(name: string) | DetachedHead(commit: Option<string>) | NotGitRepo

  datatype CachedBranch = CachedBranch(dir: Dir, info: BranchInfo, at: Time)

  /** `Instant::elapsed` is zero, not negative, if the clock has gone back. */
  function Elapsed(since: Time, now: Time): Time {
    if now < since then 0 else now - since
  }

  /** `CachedBranch::is_valid`. */
  predicate IsValid(e: CachedBranch, dir: Dir, now: Time) {
    e.dir == dir && Elapsed(e.at, now) < CACHE_TTL
  }

  /** What a second is on that clock. */
  const SECOND: Time := 1_000_000_000

  /** One use of the cache: a lookup, with the instant of its check, what a fetch would answer and
      the instant at which that answer would be stored; or a clearing. */
  datatype Use =
    | Get(dir: Dir, checked: Time, fetch: BranchInfo, stored: Time)
    | Clear

  type Entries = map<Dir, CachedBranch>

  /** The entry is this directory's, and less than 30 seconds old. */
  predicate Serves(entries: Entries, dir: Dir, now: Time) {
    dir in entries && entries[dir].dir == dir && Elapsed(entries[dir].at, now) < 30 * SECOND
  }

  function After(entries: Entries, u: Use): Entries {
    match u
    case Clear => map[]
    case Get(dir, checked, fetch, stored) =>
      if Serves(entries, dir, checked) then entries else entries[dir := CachedBranch(dir, fetch, stored)]
  }

  /** The reads of a repository's branch, in the order in which they are made. */
  class Repository {
    const answers: nat -> BranchInfo
    var calls: nat

    constructor (answers: nat -> BranchInfo)
      ensures this.answers == answers && calls == 0
    {
      this.answers := answers;
      calls := 0;
    }

    /** `get_branch_info`. */
    method BranchOf() returns (info: BranchInfo)
      modifies this
      ensures info == answers(old(calls)) && calls == old(calls) + 1
    {
      info := answers(calls);
      calls := calls + 1;
    }
  }

  class Cache {
    var entries: Entries

    constructor ()
      ensures entries == map[]
    {
      entries := map[];
    }

    /** `cached_branch_info_for_dir`: one read if the entry does not serve, none if it does. */
    method CachedBranchInfoForDir(dir: Dir, checked: Time, repository: Repository, stored: Time)
      returns (info: BranchInfo)
      modifies this, repository
      ensures repository.calls == old(repository.calls) + if Serves(old(entries), dir, checked) then 0 else 1
      ensures entries == After(old(entries), Get(dir, checked, repository.answers(old(repository.calls)), stored))
      ensures info == if Serves(old(entries), dir, checked) then old(entries)[dir].info
              else repository.answers(old(repository.calls))
    {
      if dir in entries {
        if IsValid(entries[dir], dir, checked) {
          return entries[dir].info;
        }
      }
      entries := entries - {dir};
      info := repository.BranchOf();
      entries := entries[dir := CachedBranch(dir, info, stored)];
    }

    /** `clear_cache`. */
    method ClearCache()
      modifies this
      ensures entries == After(old(entries), Clear)
    {
      entries := map[];
    }
  }

  // ------------------------------------------------------------------ runs

  /** The cache after the first `n` uses of a run that starts empty. */
  function State(run: seq<Use>, n: nat): Entries
    requires n <= |run|
  {
    if n == 0 then map[] else After(State(run, n - 1), run[n - 1])
  }

  /** Use `i` has to fetch. */
  predicate Fetches(run: seq<Use>, i: nat)
    requires i < |run|
  {
    run[i].Get? && !Serves(State(run, i), run[i].dir, run[i].checked)
  }

  /** What use `i` returns. */
  function Returned(run: seq<Use>, i: nat): BranchInfo
    requires i < |run| && run[i].Get?
  {
    if Fetches(run, i) then run[i].fetch else State(run, i)[run[i].dir].info
  }

  /** Use `j` fetched for `dir`, and nothing has been cleared between it and use `n`. */
  ghost predicate Known(run: seq<Use>, n: nat, dir: Dir, j: int)
    requires n <= |run|
  {
    0 <= j < n && Fetches(run, j) && run[j].dir == dir && forall m :: j < m < n ==> !run[m].Clear?
  }

  /** `j` is the last such use. */
  ghost predicate Latest(run: seq<Use>, n: nat, dir: Dir, j: int)
    requires n <= |run|
  {
    Known(run, n, dir, j) && forall m :: j < m < n ==> !Known(run, n, dir, m)
  }

  /** The cache holds, under each directory, the latest fetch for that directory since the last
      clearing, and nothing else. */
  lemma {:induction false} StateHoldsLatest(run: seq<Use>, n: nat, dir: Dir) returns (j: int)
    requires n <= |run|
    ensures dir in State(run, n) ==>
              Latest(run, n, dir, j) && State(run, n)[dir] == CachedBranch(dir, run[j].fetch, run[j].stored)
    ensures dir !in State(run, n) ==> forall k :: !Known(run, n, dir, k)
  {
    j := 0;
    if n > 0 {
      var u := run[n - 1];
      j := StateHoldsLatest(run, n - 1, dir);
      forall k | Known(run, n, dir, k) ensures k == n - 1 || Known(run, n - 1, dir, k) {}
      if u.Get? {
        assert Known(run, n - 1, dir, j) ==> Known(run, n, dir, j);
        if u.dir == dir && Fetches(run, n - 1) { j := n - 1; }
      }
    }
  }

  /** Over every run: a lookup returns what it fetched itself or what the latest fetch for the same
      directory answered, and it fetches exactly when that one is missing, cleared away or no
      longer fresh. */
  lemma AnswersAreFetched(run: seq<Use>, i: nat)
    requires i < |run| && run[i].Get?
    ensures Fetches(run, i) <==>
              forall j :: Latest(run, i, run[i].dir, j) ==> Elapsed(run[j].stored, run[i].checked) >= 30 * SECOND
    ensures Fetches(run, i) ==> Returned(run, i) == run[i].fetch
    ensures forall j :: !Fetches(run, i) && Latest(run, i, run[i].dir, j) ==> Returned(run, i) == run[j].fetch
    ensures !Fetches(run, i) ==> exists j :: Latest(run, i, run[i].dir, j)
  {
    var j := StateHoldsLatest(run, i, run[i].dir);
    var dir := run[i].dir;
    forall k | Latest(run, i, dir, k) ensures dir in State(run, i) && k == j {
      assert Known(run, i, dir, k);
      assert Known(run, i, dir, j);
    }
  }

  /** The clock never goes back: a lookup checks, then stores, and the next use comes later. */
  ghost predicate Monotonic(run: seq<Use>) {
    && (forall i :: 0 <= i < |run| && run[i].Get? ==> run[i].checked <= run[i].stored)
    && (forall i, j :: 0 <= i < j < |run| && run[i].Get? && run[j].Get? ==> run[i].stored <= run[j].checked)
  }

  /** With such a clock any fetch that is fresh enough saves the next one, not only the latest. */
  lemma FetchesExactlyWhenStale(run: seq<Use>, i: nat)
    requires Monotonic(run) && i < |run| && run[i].Get?
    ensures Fetches(run, i) <==>
              forall j :: Known(run, i, run[i].dir, j) ==> run[i].checked - run[j].stored >= 30 * SECOND
    ensures !Fetches(run, i) ==>
              exists j :: Known(run, i, run[i].dir, j) && Returned(run, i) == run[j].fetch
                && 0 <= run[i].checked - run[j].stored < 30 * SECOND
  {
    AnswersAreFetched(run, i);
    var dir := run[i].dir;
    var j := StateHoldsLatest(run, i, dir);
    forall k | Known(run, i, dir, k)
      ensures Latest(run, i, dir, j) && run[k].stored <= run[j].stored <= run[i].checked
    {
      if j < k { assert false; }
      assert run[k].stored <= run[i].checked;
    }
  }

  /** Between two fetches for one directory there is a clearing or the whole time to live. */
  lemma FetchesAreSpaced(run: seq<Use>, i: nat, j: nat)
    requires Monotonic(run) && i < j < |run| && Fetches(run, i) && Fetches(run, j) && run[i].dir == run[j].dir
    ensures (exists m :: i < m < j && run[m].Clear?) || run[j].checked - run[i].stored >= 30 * SECOND
  {
    FetchesExactlyWhenStale(run, j);
    if forall m :: i < m < j ==> !run[m].Clear? {
      assert Known(run, j, run[j].dir, i);
    }
  }

  /** A directory's entry outlives every stretch of lookups in other directories. */
  lemma {:induction false} OthersAreUntouched(run: seq<Use>, m: nat, n: nat, dir: Dir)
    requires m <= n <= |run| && forall k :: m <= k < n ==> run[k].Get? && run[k].dir != dir
    ensures dir in State(run, n) <==> dir in State(run, m)
    ensures dir in State(run, n) ==> State(run, n)[dir] == State(run, m)[dir]
  {
    if m < n {
      OthersAreUntouched(run, m, n - 1, dir);
    }
  }
}
