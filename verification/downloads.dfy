/**
 * The download-and-cleanup phase run after the exports are triggered: the
 * export-job table is read once, the files of rows 1 and 2 are downloaded
 * under their canonical names, and then every row from the last down to row 1
 * is deleted. A download that does not land in time is only a warning; any
 * missing row or missing control raises and abandons the rest of the phase.
 *
 * The browser is replaced by the rows' oracle fields, the filesystem by a set
 * of paths, and wall-clock time by a tick counter.
 */
module Downloads {
  import opened Options
  import opened FileWaiter
  import Naming

  type Path = string
  type FileSystem = set<Path>

  /** Ticks waited before the table is read, and after each row deletion. */
  const ListingSettleTicks: nat := 3
  const DeleteSettleTicks: nat := 1

  /** The table positions whose files are downloaded, in this order; row 0 is never downloaded. */
  const FirstDownloadRow: nat := 1
  const SecondDownloadRow: nat := 2

  /**
   * One row of the export-job table as the page shows it.
   * `name` is the text of its name cell (`None` when the cell is missing),
   * `hasDownload`/`hasDelete` say whether its controls are present, and
   * `arrival` is the tick after the download is triggered at which the file
   * lands (`None`: it never does).
   */
  datatype Row = Row(name: Option<string>, hasDownload: bool, arrival: Option<nat>, hasDelete: bool)

  predicate Fetchable(row: Row) {
    row.name.Some? && row.hasDownload
  }

  predicate Deletable(row: Row) {
    row.name.Some? && row.hasDelete
  }

  /** Why the phase raised, with the table position it was working on. */
  datatype Failure =
    | RowMissing(index: nat)
    | NameMissing(index: nat)
    | DownloadControlMissing(index: nat)
    | DeleteControlMissing(index: nat)

  /** One download: the row, the file it was saved to, and how the wait ended. */
  datatype Fetch = Fetch(index: nat, target: Path, outcome: WaitOutcome)

  /**
   * The local filesystem, the ticks spent so far, the downloads done, and the
   * table positions deleted, in order.
   */
  datatype State = State(fs: FileSystem, clock: nat, fetched: seq<Fetch>, deleted: seq<nat>)

  /** A finished phase, or one abandoned by an exception; either way with the effects so far. */
  datatype Run = Done(state: State) | Raised(state: State, failure: Failure)

  /** Deleting a leftover file of the target's name; every other path is untouched. */
  function RemoveStale(fs: FileSystem, target: Path): (fs': FileSystem)
    ensures target !in fs'
    ensures forall p :: p != target ==> (p in fs' <==> p in fs)
  {
    fs - {target}
  }

  /**
   * Downloading the file of table position `i`: derive the target, remove a
   * leftover of that name, trigger the download, and wait for the file.
   * Because the leftover is gone, the wait ends exactly when this download
   * lands, and a timeout does not raise.
   */
  function FetchRow(st: State, listing: seq<Row>, i: nat, userDir: string, owner: string): (r: Run)
    ensures r.state.deleted == st.deleted
    ensures r.Done? <==> i < |listing| && Fetchable(listing[i])
    ensures r.Raised? ==> r.failure.index == i
    ensures r.Raised? ==> r.state.fetched == st.fetched && r.state.clock == st.clock
    ensures r.Raised? ==> r.state.fs <= st.fs
    ensures r.Raised? ==> forall p :: p in st.fs && p !in r.state.fs ==> Naming.UnderDir(userDir, p)
    ensures r.Done? ==>
              var t := Naming.TargetFile(userDir, listing[i].name.value, owner);
              var outcome := FirstSighting(listing[i].arrival);
              && r.state.fetched == st.fetched + [Fetch(i, t, outcome)]
              && r.state.clock == st.clock + outcome.elapsed
              && (t in r.state.fs <==> outcome.Arrived?)
              && (forall p :: p != t ==> (p in r.state.fs <==> p in st.fs))
  {
    if i >= |listing| then Raised(st, RowMissing(i))
    else
      var row := listing[i];
      if row.name.None? then Raised(st, NameMissing(i))
      else
        var target := Naming.TargetFile(userDir, row.name.value, owner);
        var fs := RemoveStale(st.fs, target);
        if !row.hasDownload then Raised(st.(fs := fs), DownloadControlMissing(i))
        else
          var present := (k: nat) => target in fs || Landed(row.arrival, k);
          AwaitArrival(present, row.arrival);
          var outcome := AwaitFile(present);
          var fs' := if outcome.Arrived? then fs + {target} else fs;
          Done(State(fs', st.clock + outcome.elapsed, st.fetched + [Fetch(i, target, outcome)], st.deleted))
  }

  /** Rows 1 and 2, in that order; the first exception stops the phase. */
  function DownloadPhase(st: State, listing: seq<Row>, userDir: string, owner: string): (r: Run)
    ensures r.state.deleted == st.deleted
    ensures r.Done? <==> |listing| > SecondDownloadRow && Fetchable(listing[1]) && Fetchable(listing[2])
    ensures r.Done? ==> |r.state.fetched| == |st.fetched| + 2
    ensures r.Done? ==> r.state.fetched[|st.fetched|].index == 1 && r.state.fetched[|st.fetched| + 1].index == 2
    ensures forall p :: !Naming.UnderDir(userDir, p) ==> (p in r.state.fs <==> p in st.fs)
    ensures r.state.clock <= st.clock + 2 * Timeout
  {
    match FetchRow(st, listing, FirstDownloadRow, userDir, owner)
    case Raised(s, f) => Raised(s, f)
    case Done(s) => FetchRow(s, listing, SecondDownloadRow, userDir, owner)
  }

  /** The positions `hi, hi - 1, ..., lo`; empty when `hi < lo`. */
  function Countdown(hi: int, lo: nat): (s: seq<nat>)
    ensures |s| == if hi >= lo then hi - lo + 1 else 0
    ensures forall k :: 0 <= k < |s| ==> s[k] == hi - k
    decreases hi - lo
  {
    if hi < lo then [] else [hi] + Countdown(hi - 1, lo)
  }

  /**
   * Deleting the rows at positions `i, i - 1, ..., 1`, each through the handle
   * captured when the table was read. Position 0 is never visited.
   */
  function DeleteRows(st: State, listing: seq<Row>, i: int): (r: Run)
    requires i < |listing|
    ensures r.state.fs == st.fs && r.state.fetched == st.fetched
    ensures r.Done? <==> forall j :: 1 <= j <= i ==> Deletable(listing[j])
    ensures r.Done? ==> r.state.deleted == st.deleted + Countdown(i, 1)
    ensures r.Raised? ==>
              && 1 <= r.failure.index <= i
              && !Deletable(listing[r.failure.index])
              && (forall j :: r.failure.index < j <= i ==> Deletable(listing[j]))
              && r.state.deleted == st.deleted + Countdown(i, r.failure.index + 1)
    ensures r.state.clock == st.clock + DeleteSettleTicks * (|r.state.deleted| - |st.deleted|)
    decreases i
  {
    if i <= 0 then Done(st)
    else
      var row := listing[i];
      if row.name.None? then Raised(st, NameMissing(i))
      else if !row.hasDelete then Raised(st, DeleteControlMissing(i))
      else DeleteRows(State(st.fs, st.clock + DeleteSettleTicks, st.fetched, st.deleted + [i]), listing, i - 1)
  }

  /** What the page must offer for the whole phase to finish without raising. */
  predicate Completes(listing: seq<Row>) {
    && |listing| > SecondDownloadRow
    && Fetchable(listing[FirstDownloadRow])
    && Fetchable(listing[SecondDownloadRow])
    && forall j :: 1 <= j < |listing| ==> Deletable(listing[j])
  }

  /**
   * The whole phase: settle, read the table once, download rows 1 and 2,
   * then delete rows `|listing| - 1` down to 1. Timeouts never decide
   * whether it raises; the outputs only ever change inside `userDir`.
   */
  function HandleDownloads(fs: FileSystem, listing: seq<Row>, userDir: string, owner: string): (r: Run)
    ensures r.Done? <==> Completes(listing)
    ensures |listing| <= SecondDownloadRow ==> r.Raised? && r.state.deleted == []
    ensures r.Done? ==> r.state.deleted == Countdown(|listing| - 1, 1)
    ensures r.Done? ==> |r.state.fetched| == 2 && r.state.fetched[0].index == 1 && r.state.fetched[1].index == 2
    ensures forall p :: !Naming.UnderDir(userDir, p) ==> (p in r.state.fs <==> p in fs)
    ensures r.state.clock <= ListingSettleTicks + 2 * Timeout + |listing|
  {
    var st := State(fs, ListingSettleTicks, [], []);
    var total := |listing| - 1;
    match DownloadPhase(st, listing, userDir, owner)
    case Raised(s, f) => Raised(s, f)
    case Done(s) => DeleteRows(s, listing, total)
  }

  /**
   * The files the phase leaves behind once rows 1 and 2 are downloadable:
   * each target holds a file exactly when its download landed in time (the
   * second download wins when both rows map to the same file), and nothing
   * else on disk changes.
   */
  lemma HandleDownloadsFiles(fs: FileSystem, listing: seq<Row>, userDir: string, owner: string)
    requires |listing| > SecondDownloadRow
    requires Fetchable(listing[FirstDownloadRow]) && Fetchable(listing[SecondDownloadRow])
    ensures var r := HandleDownloads(fs, listing, userDir, owner);
            var t1 := Naming.TargetFile(userDir, listing[1].name.value, owner);
            var t2 := Naming.TargetFile(userDir, listing[2].name.value, owner);
            && r.state.fetched == [Fetch(1, t1, FirstSighting(listing[1].arrival)),
                                   Fetch(2, t2, FirstSighting(listing[2].arrival))]
            && (t2 in r.state.fs <==> FirstSighting(listing[2].arrival).Arrived?)
            && (t1 != t2 ==> (t1 in r.state.fs <==> FirstSighting(listing[1].arrival).Arrived?))
            && (forall p :: p != t1 && p != t2 ==> (p in r.state.fs <==> p in fs))
  {
  }

  /** Every row from the last down to row 1 is visited once, in strictly descending order, and row 0 never. */
  lemma CountdownVisitsEachRowOnce(n: int)
    ensures forall j :: j in Countdown(n, 1) <==> 1 <= j <= n
    ensures forall a, b :: 0 <= a < b < |Countdown(n, 1)| ==> Countdown(n, 1)[a] > Countdown(n, 1)[b]
  {
  }

  /** The worked example: a table of six rows is cleaned up as 5, 4, 3, 2, 1. */
  lemma CountdownExample()
    ensures Countdown(5, 1) == [5, 4, 3, 2, 1]
  {
  }

  /**
   * Why the leftover is removed: a file of the target's name that were kept
   * would end the wait at once, whether or not the new download ever lands.
   */
  lemma KeptLeftoverEndsWaitAtOnce(fs: FileSystem, target: Path, arrival: Option<nat>)
    requires target in fs
    ensures AwaitFile((k: nat) => target in fs || Landed(arrival, k)) == Arrived(0)
  {
  }
}
