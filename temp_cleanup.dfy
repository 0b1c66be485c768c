/** The hourly sweep of the temporary download directory: a file is passed
    to `fs.unlink` once it is more than an hour older than the time of the
    sweep. Whether the unlink succeeds is not modelled; its error is ignored. Times are
    milliseconds, as `Date.now()` and `stat.mtime.getTime()` give them. */
module TempCleanup {
  import opened Wrappers
  import opened Seqs

  /** `60 * 60 * 1000`: both the age limit and the period of the sweep. */
  const HourMs: int := 60 * 60 * 1000

  /** The expiry rule: strictly more than an hour old. */
  predicate IsStale(now: int, mtime: int) {
    now - mtime > HourMs
  }

  /** A directory entry and the outcome of `fs.stat` on it: its modification
      time, or nothing when `stat` failed. */
  datatype TempFile = TempFile(name: string, mtime: Option<int>)

  /** The entries a sweep at `now` unlinks. */
  function StaleTest(now: int): TempFile -> bool {
    (f: TempFile) => f.mtime.Some? && IsStale(now, f.mtime.value)
  }

  /** The names one sweep at `now` unlinks (asks to delete), given the outcome
      of `fs.readdir` (nothing when it failed). A file whose `stat` failed is
      not unlinked. */
  function SweepDeletes(listing: Option<seq<TempFile>>, now: int): (names: seq<string>)
    ensures listing.None? ==> names == []
    ensures listing.Some? ==> |names| <= |listing.value|
  {
    match listing
    case None => []
    case Some(files) =>
      var stale := Filter(files, StaleTest(now));
      seq(|stale|, j requires 0 <= j < |stale| => stale[j].name)
  }

  /** A sweep unlinks exactly the listed files that `stat` finds more than
      an hour old. */
  lemma SweepDeletesStale(files: seq<TempFile>, now: int)
    ensures forall f :: f in files && f.mtime.Some? && IsStale(now, f.mtime.value) ==>
      f.name in SweepDeletes(Some(files), now)
    ensures forall n :: n in SweepDeletes(Some(files), now) ==>
      exists f :: f in files && f.name == n && f.mtime.Some? && IsStale(now, f.mtime.value)
  {
    var stale := Filter(files, StaleTest(now));
    var names := SweepDeletes(Some(files), now);
    forall f | f in files && f.mtime.Some? && IsStale(now, f.mtime.value) ensures f.name in names {
      var i :| 0 <= i < |files| && files[i] == f;
      assert StaleTest(now)(files[i]);
      var k :| 0 <= k < |stale| && stale[k] == f;
      assert names[k] == f.name;
    }
    forall n | n in names
      ensures exists f :: f in files && f.name == n && f.mtime.Some? && IsStale(now, f.mtime.value)
    {
      var k :| 0 <= k < |names| && names[k] == n;
      assert stale[k] in files && StaleTest(now)(stale[k]);
    }
  }

  /** A file exactly one hour old is not unlinked by the sweep; one
      millisecond older is; and once stale a file stays stale. */
  lemma StaleBoundary(now: int, mtime: int, later: int)
    requires now <= later
    ensures !IsStale(mtime + HourMs, mtime) && IsStale(mtime + HourMs + 1, mtime)
    ensures IsStale(now, mtime) ==> IsStale(later, mtime)
  {
  }

  /** `setInterval(sweep, HourMs)` started at `start` sweeps at `start + n * HourMs`, n >= 1. */
  function SweepTime(start: int, n: nat): int {
    start + n * HourMs
  }

  /** The sweep that unlinks a file last modified at `mtime`, for a file that
      is listed at every sweep and whose `stat` succeeds: it is the first sweep
      to find it stale, and it comes at most two hours after its modification
      or the server's start, whichever is later. Whether the file is then gone
      depends on `unlink` succeeding, which is not modelled. */
  function DeletingSweep(start: int, mtime: int): (n: nat)
    ensures n >= 1 && IsStale(SweepTime(start, n), mtime)
    ensures forall m: nat :: 1 <= m < n ==> !IsStale(SweepTime(start, m), mtime)
    ensures SweepTime(start, n) <= (if mtime < start then start else mtime) + 2 * HourMs
  {
    if mtime < start then 1
    else
      var n := (mtime - start) / HourMs + 2;
      assert (mtime - start) / HourMs * HourMs <= mtime - start < (mtime - start) / HourMs * HourMs + HourMs;
      n
  }
}
