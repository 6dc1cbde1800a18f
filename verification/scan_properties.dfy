/** What a scan promises, proved about the functional model of the scan
    loop: the database invariant is kept, the progress events count the
    work directories, existing works are reused and never duplicated, a
    rescan adds no work, and each work's tracks are exactly its audio files. */
module ScanProperties {
  import opened Common
  import opened Paths
  import opened CodeMatch
  import opened Catalog
  import opened ScanModel

  // ---------------------------------------------------------------------
  // Folding the walk

  /** Once an INSERT has failed, the rest of the walk changes nothing. */
  lemma {:induction false} RunAfterFailure(st: ScanState, walk: seq<WalkItem>, faults: Faults, now: int)
    requires st.failure.Some?
    ensures Run(st, walk, faults, now) == st
    decreases |walk|
  {
    if walk != [] {
      RunAfterFailure(st, walk[..|walk| - 1], faults, now);
    }
  }

  /** Running over `a + b` is running over `a`, then over `b`. */
  lemma {:induction false} RunSplit(st: ScanState, a: seq<WalkItem>, b: seq<WalkItem>, faults: Faults, now: int)
    ensures Run(st, a + b, faults, now) == Run(Run(st, a, faults, now), b, faults, now)
    decreases |b|
  {
    if b != [] {
      assert (a + b)[..|a + b| - 1] == a + b[..|b| - 1];
      assert (a + b)[|a + b| - 1] == b[|b| - 1];
      RunSplit(st, a, b[..|b| - 1], faults, now);
    } else {
      assert a + b == a;
    }
  }

  // ---------------------------------------------------------------------
  // The database invariant

  /** Rows with ascending ids below `next`, followed by rows numbered from
      `next` on, have ascending ids below `next + |added|`. */
  lemma KeptThenAddedOrdered(kept: seq<Track>, added: seq<Track>, next: int)
    requires forall i, j :: 0 <= i < j < |kept| ==> kept[i].id < kept[j].id
    requires forall t :: t in kept ==> t.id < next
    requires forall k :: 0 <= k < |added| ==> added[k].id == next + k
    ensures forall i, j :: 0 <= i < j < |kept + added| ==> (kept + added)[i].id < (kept + added)[j].id
    ensures forall i :: 0 <= i < |kept + added| ==> (kept + added)[i].id < next + |added|
  {
    var all := kept + added;
    forall i | 0 <= i < |all| ensures all[i].id < next + |added| {
      if i < |kept| {
        assert all[i] == kept[i] && kept[i] in kept;
      } else {
        assert all[i] == added[i - |kept|];
      }
    }
    forall i, j | 0 <= i < j < |all| ensures all[i].id < all[j].id {
      if j < |kept| {
        assert all[i] == kept[i] && all[j] == kept[j];
      } else if i < |kept| {
        assert all[i] == kept[i] && kept[i] in kept;
        assert all[j] == added[j - |kept|];
      } else {
        assert all[i] == added[i - |kept|] && all[j] == added[j - |kept|];
      }
    }
  }

  lemma ReplaceTracksKeepsConsistent(db: Db, workId: int, cs: seq<Child>, faults: Faults)
    requires Consistent(db) && HasWork(db.works, workId)
    ensures Consistent(ReplaceTracks(db, workId, cs, faults))
  {
    var files := ScanTracksOf(cs, faults).inserted;
    var kept := WithoutWork(db.tracks, workId);
    var added := NewTracks(workId, files, db.nextTrackId);
    var r := ReplaceTracks(db, workId, cs, faults);
    assert r.tracks == kept + added;
    WithoutWorkKeepsOrder(db.tracks, workId);
    forall t | t in kept ensures t.id < db.nextTrackId {
      var k :| 0 <= k < |db.tracks| && db.tracks[k] == t;
    }
    KeptThenAddedOrdered(kept, added, db.nextTrackId);
    forall t | t in r.tracks ensures HasWork(r.works, t.workId) {
      if t !in kept {
        var k :| 0 <= k < |added| && added[k] == t;
      }
    }
  }

  /** Inserting a work row for a directory and code the table does not yet hold keeps the invariant. */
  lemma InsertKeepsConsistent(db: Db, row: WorkRow, faults: Faults)
    requires Consistent(db)
    requires row.work.id == db.nextWorkId
    requires LookupByPath(db.works, row.work.dirPath).None?
    requires InsertFailure(db.works, row.work.rjCode, row.work.dirPath, faults).None?
    ensures Consistent(db.(works := db.works + [row], nextWorkId := db.nextWorkId + 1))
    ensures HasWork(db.works + [row], row.work.id)
  {
    var works := db.works + [row];
    assert works[|db.works|] == row;
    forall t | t in db.tracks ensures HasWork(works, t.workId) {
      var k :| 0 <= k < |db.works| && db.works[k].work.id == t.workId;
      assert works[k] == db.works[k];
    }
  }

  /** The three ways a visit of a work directory goes. */
  lemma VisitWorkCases(st: ScanState, name: string, path: string, cs: seq<Child>, faults: Faults, now: int)
    ensures LookupByPath(st.db.works, path).Some? ==>
      VisitWork(st, name, path, cs, faults, now) == Processed(st, LookupByPath(st.db.works, path).value, cs, faults)
    ensures LookupByPath(st.db.works, path).None? && InsertFailure(st.db.works, FindCode(name), path, faults).Some? ==>
      VisitWork(st, name, path, cs, faults, now) == st.(failure := InsertFailure(st.db.works, FindCode(name), path, faults))
    ensures LookupByPath(st.db.works, path).None? && InsertFailure(st.db.works, FindCode(name), path, faults).None? ==>
      VisitWork(st, name, path, cs, faults, now) ==
        Processed(st.(db := st.db.(works := st.db.works + [WorkRow(Work(st.db.nextWorkId, FindCode(name), name, path, CoverOf(cs)), now)],
                                   nextWorkId := st.db.nextWorkId + 1)), st.db.nextWorkId, cs, faults)
  {
    var found := LookupByPath(st.db.works, path);
    var code := FindCode(name);
    var v := VisitWork(st, name, path, cs, faults, now);
    if found.Some? {
      assert v == Processed(st, found.value, cs, faults);
    } else if InsertFailure(st.db.works, code, path, faults).Some? {
      assert v == st.(failure := InsertFailure(st.db.works, code, path, faults));
    } else {
      var row := WorkRow(Work(st.db.nextWorkId, code, name, path, CoverOf(cs)), now);
      assert v == Processed(st.(db := st.db.(works := st.db.works + [row], nextWorkId := st.db.nextWorkId + 1)), st.db.nextWorkId, cs, faults);
    }
  }

  /** Registering a new work directory and then recording its tracks keeps the invariant. */
  lemma NewWorkKeepsConsistent(db: Db, row: WorkRow, cs: seq<Child>, faults: Faults)
    requires Consistent(db)
    requires row.work.id == db.nextWorkId
    requires LookupByPath(db.works, row.work.dirPath).None?
    requires InsertFailure(db.works, row.work.rjCode, row.work.dirPath, faults).None?
    ensures Consistent(ReplaceTracks(db.(works := db.works + [row], nextWorkId := db.nextWorkId + 1), row.work.id, cs, faults))
  {
    InsertKeepsConsistent(db, row, faults);
    ReplaceTracksKeepsConsistent(db.(works := db.works + [row], nextWorkId := db.nextWorkId + 1), row.work.id, cs, faults);
  }

  lemma VisitWorkKeepsConsistent(st: ScanState, name: string, path: string, cs: seq<Child>, faults: Faults, now: int)
    requires Consistent(st.db)
    ensures Consistent(VisitWork(st, name, path, cs, faults, now).db)
  {
    VisitWorkCases(st, name, path, cs, faults, now);
    var found := LookupByPath(st.db.works, path);
    var code := FindCode(name);
    if found.Some? {
      ReplaceTracksKeepsConsistent(st.db, found.value, cs, faults);
    } else if InsertFailure(st.db.works, code, path, faults).None? {
      var row := WorkRow(Work(st.db.nextWorkId, code, name, path, CoverOf(cs)), now);
      NewWorkKeepsConsistent(st.db, row, cs, faults);
    }
  }

  lemma StepKeepsConsistent(st: ScanState, item: WalkItem, faults: Faults, now: int)
    requires Consistent(st.db)
    ensures Consistent(Step(st, item, faults, now).db)
  {
    if st.failure.None? && IsWorkItem(item) {
      VisitWorkKeepsConsistent(st, item.name, item.path, item.children, faults, now);
    }
  }

  /** The scan keeps the database invariant. */
  lemma {:induction false} RunKeepsConsistent(st: ScanState, walk: seq<WalkItem>, faults: Faults, now: int)
    requires Consistent(st.db)
    ensures Consistent(Run(st, walk, faults, now).db)
    decreases |walk|
  {
    if walk != [] {
      RunKeepsConsistent(st, walk[..|walk| - 1], faults, now);
      StepKeepsConsistent(Run(st, walk[..|walk| - 1], faults, now), walk[|walk| - 1], faults, now);
    }
  }

  // ---------------------------------------------------------------------
  // Count and progress events

  /** The k-th event (counting from one) carries k, and there are `count` of them. */
  ghost predicate CountedEvents(st: ScanState) {
    |st.events| == st.count && forall k :: 0 <= k < |st.events| ==> st.events[k] == k + 1
  }

  /** Every `scan-progress` event carries the number of works processed so
      far; the number of events equals the count; with no failed INSERT the
      count is the number of work directories in the walk. */
  lemma {:induction false} RunCounts(st: ScanState, walk: seq<WalkItem>, faults: Faults, now: int)
    requires CountedEvents(st) && st.failure.None?
    ensures CountedEvents(Run(st, walk, faults, now))
    ensures Run(st, walk, faults, now).failure.None? ==>
      Run(st, walk, faults, now).count == st.count + WorkDirCount(walk)
    decreases |walk|
  {
    if walk != [] {
      var prefix := walk[..|walk| - 1];
      RunCounts(st, prefix, faults, now);
      var before := Run(st, prefix, faults, now);
      if before.failure.Some? {
        RunAfterFailure(before, [walk[|walk| - 1]], faults, now);
      }
    }
  }

  /** What `scan_library` reports: a missing root is an error that leaves
      the catalogue alone and emits nothing; otherwise the k-th event
      carries k, and a scan that ends without error returns the number of
      work directories in the walk, which is the number of events. */
  lemma ScanReports(db: Db, rootExists: bool, walk: seq<WalkItem>, faults: Faults, now: int)
    ensures !rootExists ==> Scan(db, rootExists, walk, faults, now) == ScanOutcome(Err(DirectoryMissing), db, [])
    ensures forall k :: 0 <= k < |Scan(db, rootExists, walk, faults, now).events| ==>
      Scan(db, rootExists, walk, faults, now).events[k] == k + 1
    ensures Scan(db, rootExists, walk, faults, now).result.Ok? ==>
      Scan(db, rootExists, walk, faults, now).result.value == WorkDirCount(walk) == |Scan(db, rootExists, walk, faults, now).events|
    ensures rootExists && Scan(db, rootExists, walk, faults, now).result.Err? ==>
      Scan(db, rootExists, walk, faults, now).result.error.InsertFailed?
  {
    if rootExists {
      RunCounts(Start(db), walk, faults, now);
    }
  }

  /** A scan leaves every existing work row as it was (title and cover
      included): the old table is a prefix of the new one. */
  lemma {:induction false} RunKeepsWorkRows(st: ScanState, walk: seq<WalkItem>, faults: Faults, now: int)
    ensures st.db.works <= Run(st, walk, faults, now).db.works
    decreases |walk|
  {
    if walk != [] {
      RunKeepsWorkRows(st, walk[..|walk| - 1], faults, now);
    }
  }

  // ---------------------------------------------------------------------
  // Rescanning

  /** What visiting a work directory does to the works table and the count:
      either the visit fails and nothing changes, or the count grows by one
      and the table, grown by at most the row for `path`, holds `path`. */
  lemma VisitWorkShape(st: ScanState, name: string, path: string, cs: seq<Child>, faults: Faults, now: int)
    ensures var r := VisitWork(st, name, path, cs, faults, now);
      r.failure.Some? <==> LookupByPath(st.db.works, path).None? && InsertFailure(st.db.works, FindCode(name), path, faults).Some?
    ensures var r := VisitWork(st, name, path, cs, faults, now);
      r.failure.Some? ==> r.db.works == st.db.works && r.count == st.count
    ensures var r := VisitWork(st, name, path, cs, faults, now);
      r.failure.None? ==> r.count == st.count + 1 && st.db.works <= r.db.works && LookupByPath(r.db.works, path).Some?
    ensures var r := VisitWork(st, name, path, cs, faults, now);
      LookupByPath(st.db.works, path).Some? ==> r.db.works == st.db.works
  {
    if LookupByPath(st.db.works, path).None? && InsertFailure(st.db.works, FindCode(name), path, faults).None? {
      var r := VisitWork(st, name, path, cs, faults, now);
      assert r.db.works[|st.db.works|].work.dirPath == path;
    }
  }

  /** A directory the table does not hold yet gets a new row, when the
      INSERT succeeds: the next id, the code matched in its name (none for a
      directory found by its audio files alone), its name as title, its
      path and its cover, stamped with the scan time. */
  lemma NewWorkRow(st: ScanState, name: string, path: string, cs: seq<Child>, faults: Faults, now: int)
    requires LookupByPath(st.db.works, path).None?
    ensures var r := VisitWork(st, name, path, cs, faults, now);
      r.failure.None? ==>
        r.db.works == st.db.works + [WorkRow(Work(st.db.nextWorkId, FindCode(name), name, path, CoverOf(cs)), now)] &&
        r.db.nextWorkId == st.db.nextWorkId + 1
    ensures var r := VisitWork(st, name, path, cs, faults, now);
      r.failure.Some? <==> InsertFailure(st.db.works, FindCode(name), path, faults).Some?
  {
  }

  /** A path found in a prefix of a table is found in the table. */
  lemma LookupInPrefix(w: seq<WorkRow>, final: seq<WorkRow>, p: string)
    ensures w <= final && LookupByPath(w, p).Some? ==> LookupByPath(final, p).Some?
  {
    if w <= final && LookupByPath(w, p).Some? {
      var k :| 0 <= k < |w| && w[k].work.dirPath == p && w[k].work.id == LookupByPath(w, p).value;
      assert final[k] == w[k];
    }
  }

  /** One step of a rescan, beside the same step of the first scan: while
      the rescan's works table is the first scan's final table, the rescan
      inserts nothing, counts alike and fails at the same item. The rescan
      may meet other INSERT faults as long as the first scan's step did not
      fail. */
  lemma RescanStep(a: ScanState, b: ScanState, x: WalkItem, final: seq<WorkRow>, faults: Faults, faults2: Faults,
                   now: int, now2: int)
    requires b.db.works == final && b.count == a.count && (b.failure.Some? <==> a.failure.Some?)
    requires Step(a, x, faults, now).db.works <= final
    requires Step(a, x, faults, now).failure.Some? && a.failure.None? ==> final == a.db.works && faults2 == faults
    ensures Step(b, x, faults2, now2).db.works == final
    ensures Step(b, x, faults2, now2).count == Step(a, x, faults, now).count
    ensures Step(b, x, faults2, now2).failure.Some? <==> Step(a, x, faults, now).failure.Some?
  {
    if a.failure.None? && IsWorkItem(x) {
      var a' := VisitWork(a, x.name, x.path, x.children, faults, now);
      VisitWorkShape(a, x.name, x.path, x.children, faults, now);
      VisitWorkShape(b, x.name, x.path, x.children, faults2, now2);
      LookupInPrefix(a'.db.works, final, x.path);
    }
  }

  /** The rescan beside the first scan, item by item: after the same prefix
      of the walk, the rescan's table is the first scan's final table, the
      counts agree and both have failed or neither has. */
  lemma {:induction false} RescanPrefix(db: Db, walk: seq<WalkItem>, faults: Faults, faults2: Faults, now: int, now2: int, j: nat)
    requires j <= |walk|
    requires faults2 == faults || Run(Start(db), walk, faults, now).failure.None?
    ensures var final := Run(Start(db), walk, faults, now).db.works;
      var a := Run(Start(db), walk[..j], faults, now);
      var b := Run(Start(Run(Start(db), walk, faults, now).db), walk[..j], faults2, now2);
      b.db.works == final && b.count == a.count && (b.failure.Some? <==> a.failure.Some?)
    decreases j
  {
    var first := Run(Start(db), walk, faults, now);
    if j == 0 {
      RunKeepsWorkRows(Start(db), walk, faults, now);
    } else {
      RescanPrefix(db, walk, faults, faults2, now, now2, j - 1);
      var x := walk[j - 1];
      assert walk[..j][..j - 1] == walk[..j - 1];
      var a := Run(Start(db), walk[..j - 1], faults, now);
      var b := Run(Start(first.db), walk[..j - 1], faults2, now2);
      var a' := Run(Start(db), walk[..j], faults, now);
      assert a' == Step(a, x, faults, now);
      assert walk == walk[..j] + walk[j..];
      RunSplit(Start(db), walk[..j], walk[j..], faults, now);
      RunKeepsWorkRows(a', walk[j..], faults, now);
      if a'.failure.Some? {
        RunAfterFailure(a', walk[j..], faults, now);
      }
      RescanStep(a, b, x, first.db.works, faults, faults2, now, now2);
    }
  }

  /** Scanning the same walk again under the same INSERT faults inserts no
      work, reports the same count and fails exactly when the first scan
      failed. */
  lemma RescanAddsNoWork(db: Db, walk: seq<WalkItem>, faults: Faults, now: int, now2: int)
    ensures var first := Run(Start(db), walk, faults, now);
      var second := Run(Start(first.db), walk, faults, now2);
      second.db.works == first.db.works && second.count == first.count &&
      (second.failure.Some? <==> first.failure.Some?)
  {
    RescanPrefix(db, walk, faults, faults, now, now2, |walk|);
    assert walk[..|walk|] == walk;
  }

  /** After a scan that ended without error, a rescan meets only stored
      directories, so whatever INSERTs fail then, it inserts no work,
      reports the same count and does not fail. */
  lemma RescanAfterSuccess(db: Db, walk: seq<WalkItem>, faults: Faults, faults2: Faults, now: int, now2: int)
    requires Run(Start(db), walk, faults, now).failure.None?
    ensures var first := Run(Start(db), walk, faults, now);
      var second := Run(Start(first.db), walk, faults2, now2);
      second.db.works == first.db.works && second.count == first.count && second.failure.None?
  {
    RescanPrefix(db, walk, faults, faults2, now, now2, |walk|);
    assert walk[..|walk|] == walk;
  }

  /** The last work item of the walk at `p`, given one. */
  lemma LastWorkVisit(walk: seq<WalkItem>, p: string, k0: nat) returns (k: nat)
    requires k0 < |walk| && IsWorkItem(walk[k0]) && walk[k0].path == p
    ensures k < |walk| && IsWorkItem(walk[k]) && walk[k].path == p
    ensures forall j :: k < j < |walk| && IsWorkItem(walk[j]) ==> walk[j].path != p
    decreases |walk| - k0
  {
    k := k0;
    if j :| k0 < j < |walk| && IsWorkItem(walk[j]) && walk[j].path == p {
      k := LastWorkVisit(walk, p, j);
    }
  }

  /** Under the same INSERT faults, a rescan after a scan that ended
      without error leaves the work stored at `p` as many tracks as the
      first scan left it. */
  lemma RescanWorkTrackCount(db: Db, walk: seq<WalkItem>, faults: Faults, now: int, now2: int, p: string)
    requires Consistent(db)
    requires Run(Start(db), walk, faults, now).failure.None?
    requires LookupByPath(Run(Start(db), walk, faults, now).db.works, p).Some?
    ensures var first := Run(Start(db), walk, faults, now).db;
      var second := Run(Start(first), walk, faults, now2).db;
      var w := LookupByPath(first.works, p).value;
      |TracksOf(second.tracks, w)| == |TracksOf(first.tracks, w)|
  {
    var first := Run(Start(db), walk, faults, now);
    var second := Run(Start(first.db), walk, faults, now2);
    var w := LookupByPath(first.db.works, p).value;
    RescanAddsNoWork(db, walk, faults, now, now2);
    RunKeepsConsistent(Start(db), walk, faults, now);
    if k0 :| 0 <= k0 < |walk| && IsWorkItem(walk[k0]) && walk[k0].path == p {
      var k := LastWorkVisit(walk, p, k0);
      var files := ScanTracksOf(walk[k].children, faults).inserted;
      WorkTracksAreItsAudioFiles(db, walk, faults, now, k);
      var f1 :| TracksOf(first.db.tracks, w) == NewTracks(w, files, f1);
      WorkTracksAreItsAudioFiles(first.db, walk, faults, now2, k);
      var f2 :| TracksOf(second.db.tracks, w) == NewTracks(w, files, f2);
    } else {
      OtherStepsKeepTracks(Start(first.db), walk, faults, now2, p, w);
    }
  }

  /** The work ids of a track table, in order. */
  function WorkIds(tracks: seq<Track>): (r: seq<int>)
    ensures |r| == |tracks|
  {
    if tracks == [] then [] else WorkIds(tracks[..|tracks| - 1]) + [tracks[|tracks| - 1].workId]
  }

  /** Work `w` occurs among the work ids once per track it owns. */
  lemma {:induction false} WorkIdsCount(tracks: seq<Track>, w: int)
    ensures multiset(WorkIds(tracks))[w] == |TracksOf(tracks, w)|
    decreases |tracks|
  {
    if tracks != [] {
      WorkIdsCount(tracks[..|tracks| - 1], w);
    }
  }

  /** Two track tables in which every work owns as many rows have as many rows. */
  lemma SameWorkCountsSameSize(t1: seq<Track>, t2: seq<Track>)
    requires forall w :: |TracksOf(t1, w)| == |TracksOf(t2, w)|
    ensures |t1| == |t2|
  {
    forall w ensures multiset(WorkIds(t1))[w] == multiset(WorkIds(t2))[w] {
      WorkIdsCount(t1, w);
      WorkIdsCount(t2, w);
    }
    assert multiset(WorkIds(t1)) == multiset(WorkIds(t2));
    assert |WorkIds(t1)| == |multiset(WorkIds(t1))|;
  }

  /** A consistent catalogue holds no track of a work it does not store. */
  lemma NoWorkNoTracks(db: Db, w: int)
    requires Consistent(db) && !HasWork(db.works, w)
    ensures TracksOf(db.tracks, w) == []
  {
  }

  /** The same for any work id: a work the first scan's table does not
      store has no tracks in either table. */
  lemma RescanTrackCountOf(db: Db, walk: seq<WalkItem>, faults: Faults, now: int, now2: int, w: int)
    requires Consistent(db)
    requires Run(Start(db), walk, faults, now).failure.None?
    ensures var first := Run(Start(db), walk, faults, now).db;
      var second := Run(Start(first), walk, faults, now2).db;
      |TracksOf(second.tracks, w)| == |TracksOf(first.tracks, w)|
  {
    var first := Run(Start(db), walk, faults, now).db;
    var second := Run(Start(first), walk, faults, now2).db;
    RescanAddsNoWork(db, walk, faults, now, now2);
    RunKeepsConsistent(Start(db), walk, faults, now);
    if HasWork(first.works, w) {
      var k :| 0 <= k < |first.works| && first.works[k].work.id == w;
      var p := first.works[k].work.dirPath;
      var k' :| 0 <= k' < |first.works| && first.works[k'].work.dirPath == p &&
        first.works[k'].work.id == LookupByPath(first.works, p).value;
      assert k' == k;
      RescanWorkTrackCount(db, walk, faults, now, now2, p);
    } else {
      RunKeepsConsistent(Start(first), walk, faults, now2);
      NoWorkNoTracks(first, w);
      NoWorkNoTracks(second, w);
    }
  }

  /** Under the same INSERT faults, a rescan after a scan that ended without
      error leaves every work as many tracks as the first scan did, and the
      tracks table as long. */
  lemma RescanSuccessTrackCounts(db: Db, walk: seq<WalkItem>, faults: Faults, now: int, now2: int)
    requires Consistent(db)
    requires Run(Start(db), walk, faults, now).failure.None?
    ensures var first := Run(Start(db), walk, faults, now).db;
      var second := Run(Start(first), walk, faults, now2).db;
      (forall w :: |TracksOf(second.tracks, w)| == |TracksOf(first.tracks, w)|) &&
      |second.tracks| == |first.tracks|
  {
    var first := Run(Start(db), walk, faults, now).db;
    var second := Run(Start(first), walk, faults, now2).db;
    forall w ensures |TracksOf(second.tracks, w)| == |TracksOf(first.tracks, w)| {
      RescanTrackCountOf(db, walk, faults, now, now2, w);
    }
    SameWorkCountsSameSize(second.tracks, first.tracks);
  }

  /** A step that fails leaves the database as it was. */
  lemma StepFailureKeepsDb(st: ScanState, x: WalkItem, faults: Faults, now: int)
    requires st.failure.None? && Step(st, x, faults, now).failure.Some?
    ensures Step(st, x, faults, now).db == st.db
  {
  }

  /** A scan that fails does so at one item `f`: the walk before it runs
      without error, and the database the scan leaves is the one that
      prefix leaves. */
  lemma {:induction false} FailingItem(st: ScanState, walk: seq<WalkItem>, faults: Faults, now: int) returns (f: nat)
    requires st.failure.None? && Run(st, walk, faults, now).failure.Some?
    ensures f < |walk|
    ensures Run(st, walk[..f], faults, now).failure.None?
    ensures Run(st, walk[..f + 1], faults, now).failure.Some?
    ensures Run(st, walk, faults, now).db == Run(st, walk[..f], faults, now).db
    decreases |walk|
  {
    var n := |walk| - 1;
    var before := Run(st, walk[..n], faults, now);
    if before.failure.Some? {
      f := FailingItem(st, walk[..n], faults, now);
      assert walk[..n][..f] == walk[..f] && walk[..n][..f + 1] == walk[..f + 1];
    } else {
      f := n;
      assert walk[..n + 1] == walk;
      StepFailureKeepsDb(before, walk[n], faults, now);
    }
  }

  /** When the first scan fails, the rescan under the same INSERT faults
      fails at the same item `f`: both leave the databases that the walk
      before `f` leaves, and that prefix runs without error. */
  lemma RescanFailsAtSameItem(db: Db, walk: seq<WalkItem>, faults: Faults, now: int, now2: int) returns (f: nat)
    requires Run(Start(db), walk, faults, now).failure.Some?
    ensures f <= |walk|
    ensures Run(Start(db), walk[..f], faults, now).failure.None?
    ensures Run(Start(db), walk, faults, now).db == Run(Start(db), walk[..f], faults, now).db
    ensures Run(Start(Run(Start(db), walk, faults, now).db), walk, faults, now2).db ==
      Run(Start(Run(Start(db), walk, faults, now).db), walk[..f], faults, now2).db
  {
    var first := Run(Start(db), walk, faults, now);
    f := FailingItem(Start(db), walk, faults, now);
    RescanPrefix(db, walk, faults, faults, now, now2, f);
    RescanPrefix(db, walk, faults, faults, now, now2, f + 1);
    FailsAt(Start(first.db), walk, faults, now2, f);
  }

  /** A walk whose prefix before item `f` runs without error and whose item
      `f` fails leaves the database that the prefix leaves. */
  lemma FailsAt(st: ScanState, walk: seq<WalkItem>, faults: Faults, now: int, f: nat)
    requires f < |walk|
    requires Run(st, walk[..f], faults, now).failure.None?
    requires Run(st, walk[..f + 1], faults, now).failure.Some?
    ensures Run(st, walk, faults, now).db == Run(st, walk[..f], faults, now).db
  {
    var b := Run(st, walk[..f], faults, now);
    var b' := Run(st, walk[..f + 1], faults, now);
    assert walk[..f + 1][..f] == walk[..f];
    assert b' == Step(b, walk[f], faults, now);
    StepFailureKeepsDb(b, walk[f], faults, now);
    SplitAt(walk, f + 1);
    RunSplit(st, walk[..f + 1], walk[f + 1..], faults, now);
    RunAfterFailure(b', walk[f + 1..], faults, now);
  }

  lemma SplitAt<T>(s: seq<T>, k: nat)
    requires k <= |s|
    ensures s == s[..k] + s[k..]
  {
  }

  /** Under the same INSERT faults, a rescan leaves every work as many
      tracks as the first scan did, and the tracks table as long; when the
      first scan failed, both stop at the same item. */
  lemma RescanKeepsTrackCounts(db: Db, walk: seq<WalkItem>, faults: Faults, now: int, now2: int)
    requires Consistent(db)
    ensures var first := Run(Start(db), walk, faults, now).db;
      var second := Run(Start(first), walk, faults, now2).db;
      (forall w :: |TracksOf(second.tracks, w)| == |TracksOf(first.tracks, w)|) &&
      |second.tracks| == |first.tracks|
  {
    if Run(Start(db), walk, faults, now).failure.None? {
      RescanSuccessTrackCounts(db, walk, faults, now, now2);
    } else {
      var f := RescanFailsAtSameItem(db, walk, faults, now, now2);
      RescanSuccessTrackCounts(db, walk[..f], faults, now, now2);
    }
  }

  // ---------------------------------------------------------------------
  // The tracks of a work

  lemma {:induction false} TracksOfAppend(a: seq<Track>, b: seq<Track>, w: int)
    ensures TracksOf(a + b, w) == TracksOf(a, w) + TracksOf(b, w)
    decreases |b|
  {
    if b == [] {
      assert a + b == a;
    } else {
      var b0 := b[..|b| - 1];
      assert (a + b)[..|a + b| - 1] == a + b0;
      assert (a + b)[|a + b| - 1] == b[|b| - 1];
      TracksOfAppend(a, b0, w);
    }
  }

  /** After `DELETE ... WHERE work_id = w'`, work `w` keeps its rows unless it is `w'`. */
  lemma {:induction false} TracksOfWithout(t: seq<Track>, w': int, w: int)
    ensures TracksOf(WithoutWork(t, w'), w) == if w == w' then [] else TracksOf(t, w)
    decreases |t|
  {
    if t != [] {
      var t0 := t[..|t| - 1];
      var last := t[|t| - 1];
      TracksOfWithout(t0, w', w);
      if last.workId != w' {
        TracksOfAppend(WithoutWork(t0, w'), [last], w);
      }
    }
  }

  /** The inserted rows belong to their own work only. */
  lemma {:induction false} TracksOfNew(w': int, files: seq<Child>, first: int, w: int)
    ensures TracksOf(NewTracks(w', files, first), w) == if w == w' then NewTracks(w', files, first) else []
    decreases |files|
  {
    if files != [] {
      var f0 := files[..|files| - 1];
      var all := NewTracks(w', files, first);
      assert all == NewTracks(w', f0, first) + [all[|all| - 1]];
      TracksOfNew(w', f0, first, w);
      TracksOfAppend(NewTracks(w', f0, first), [all[|all| - 1]], w);
    }
  }

  /** Processing work `id` gives it exactly the rows for its inserted audio
      files and leaves every other work's rows as they were. */
  lemma ProcessedTracks(st: ScanState, id: int, cs: seq<Child>, faults: Faults, w: int)
    ensures TracksOf(Processed(st, id, cs, faults).db.tracks, w) ==
      if w == id then NewTracks(id, ScanTracksOf(cs, faults).inserted, st.db.nextTrackId)
      else TracksOf(st.db.tracks, w)
  {
    var added := NewTracks(id, ScanTracksOf(cs, faults).inserted, st.db.nextTrackId);
    TracksOfAppend(WithoutWork(st.db.tracks, id), added, w);
    TracksOfWithout(st.db.tracks, id, w);
    TracksOfNew(id, ScanTracksOf(cs, faults).inserted, st.db.nextTrackId, w);
  }

  /** A path found in a prefix of a table is found there with the same id. */
  lemma {:induction false} LookupInLongerTable(w: seq<WorkRow>, final: seq<WorkRow>, p: string)
    requires w <= final && LookupByPath(w, p).Some?
    ensures LookupByPath(final, p) == LookupByPath(w, p)
    decreases |w|
  {
    if w[0].work.dirPath != p {
      assert w[1..] <= final[1..];
      LookupInLongerTable(w[1..], final[1..], p);
    }
  }

  /** Visiting a work directory gives that work exactly the rows for its inserted audio files. */
  lemma VisitedWorkTracks(st: ScanState, name: string, path: string, cs: seq<Child>, faults: Faults, now: int)
    requires VisitWork(st, name, path, cs, faults, now).failure.None?
    ensures var r := VisitWork(st, name, path, cs, faults, now);
      LookupByPath(r.db.works, path).Some? &&
      TracksOf(r.db.tracks, LookupByPath(r.db.works, path).value) ==
        NewTracks(LookupByPath(r.db.works, path).value, ScanTracksOf(cs, faults).inserted, st.db.nextTrackId)
  {
    VisitWorkShape(st, name, path, cs, faults, now);
    var r := VisitWork(st, name, path, cs, faults, now);
    match LookupByPath(st.db.works, path)
    case Some(id) =>
      ProcessedTracks(st, id, cs, faults, id);
    case None =>
      var id := st.db.nextWorkId;
      var row := WorkRow(Work(id, FindCode(name), name, path, CoverOf(cs)), now);
      var st' := st.(db := st.db.(works := st.db.works + [row], nextWorkId := id + 1));
      assert LookupByPath(r.db.works, path) == Some(id) by {
        LookupAfterMisses(st.db.works, row, path);
      }
      ProcessedTracks(st', id, cs, faults, id);
  }

  /** A table that misses `p`, extended by a row for `p`, finds that row. */
  lemma {:induction false} LookupAfterMisses(w: seq<WorkRow>, row: WorkRow, p: string)
    requires LookupByPath(w, p).None? && row.work.dirPath == p
    ensures LookupByPath(w + [row], p) == Some(row.work.id)
    decreases |w|
  {
    if w != [] {
      assert (w + [row])[1..] == w[1..] + [row];
      LookupAfterMisses(w[1..], row, p);
    }
  }

  /** A step that does not visit `path` leaves the rows of the work stored
      for `path` as they were. */
  lemma OtherStepKeepsTracks(st: ScanState, x: WalkItem, faults: Faults, now: int, path: string, wid: int)
    requires Consistent(st.db) && LookupByPath(st.db.works, path) == Some(wid)
    requires IsWorkItem(x) ==> x.path != path
    ensures LookupByPath(Step(st, x, faults, now).db.works, path) == Some(wid)
    ensures TracksOf(Step(st, x, faults, now).db.tracks, wid) == TracksOf(st.db.tracks, wid)
  {
    if st.failure.None? && IsWorkItem(x) {
      var r := VisitWork(st, x.name, x.path, x.children, faults, now);
      VisitWorkShape(st, x.name, x.path, x.children, faults, now);
      LookupInLongerTable(st.db.works, r.db.works, path);
      var k :| 0 <= k < |st.db.works| && st.db.works[k].work.dirPath == path && st.db.works[k].work.id == wid;
      match LookupByPath(st.db.works, x.path)
      case Some(id) =>
        var k' :| 0 <= k' < |st.db.works| && st.db.works[k'].work.dirPath == x.path && st.db.works[k'].work.id == id;
        assert k != k';
        ProcessedTracks(st, id, x.children, faults, wid);
      case None =>
        if InsertFailure(st.db.works, FindCode(x.name), x.path, faults).None? {
          var id := st.db.nextWorkId;
          var row := WorkRow(Work(id, FindCode(x.name), x.name, x.path, CoverOf(x.children)), now);
          var st' := st.(db := st.db.(works := st.db.works + [row], nextWorkId := id + 1));
          ProcessedTracks(st', id, x.children, faults, wid);
        }
    }
  }

  lemma {:induction false} OtherStepsKeepTracks(st: ScanState, rest: seq<WalkItem>, faults: Faults, now: int, path: string, wid: int)
    requires Consistent(st.db) && LookupByPath(st.db.works, path) == Some(wid)
    requires forall j :: 0 <= j < |rest| && IsWorkItem(rest[j]) ==> rest[j].path != path
    ensures LookupByPath(Run(st, rest, faults, now).db.works, path) == Some(wid)
    ensures TracksOf(Run(st, rest, faults, now).db.tracks, wid) == TracksOf(st.db.tracks, wid)
    decreases |rest|
  {
    if rest != [] {
      var r0 := rest[..|rest| - 1];
      OtherStepsKeepTracks(st, r0, faults, now, path, wid);
      RunKeepsConsistent(st, r0, faults, now);
      OtherStepKeepsTracks(Run(st, r0, faults, now), rest[|rest| - 1], faults, now, path, wid);
    }
  }

  /** A scan that has failed stays failed. */
  lemma FailureSticks(st: ScanState, walk: seq<WalkItem>, faults: Faults, now: int)
    ensures st.failure.Some? ==> Run(st, walk, faults, now).failure.Some?
  {
    if st.failure.Some? {
      RunAfterFailure(st, walk, faults, now);
    }
  }

  /** The walk split around its item `k`. */
  lemma RunAround(st: ScanState, walk: seq<WalkItem>, faults: Faults, now: int, k: nat)
    requires k < |walk|
    ensures Run(st, walk, faults, now) ==
      Run(Step(Run(st, walk[..k], faults, now), walk[k], faults, now), walk[k + 1..], faults, now)
  {
    assert walk[..k + 1][..k] == walk[..k];
    assert walk == walk[..k + 1] + walk[k + 1..];
    RunSplit(st, walk[..k + 1], walk[k + 1..], faults, now);
  }

  /** After a scan that ends without error, the work stored for the
      directory of walk item `k` holds one track per audio file that
      `scan_tracks` inserted for it, titled by the file stem, with
      consecutive ids, provided no later item of the walk is the same
      directory. */
  lemma WorkTracksAreItsAudioFiles(db: Db, walk: seq<WalkItem>, faults: Faults, now: int, k: nat)
    requires Consistent(db)
    requires k < |walk| && IsWorkItem(walk[k])
    requires Run(Start(db), walk, faults, now).failure.None?
    requires forall j :: k < j < |walk| && IsWorkItem(walk[j]) ==> walk[j].path != walk[k].path
    ensures var final := Run(Start(db), walk, faults, now).db;
      var wid := LookupByPath(final.works, walk[k].path);
      wid.Some? &&
      exists first :: TracksOf(final.tracks, wid.value) == NewTracks(wid.value, ScanTracksOf(walk[k].children, faults).inserted, first)
  {
    var x := walk[k];
    var a := Run(Start(db), walk[..k], faults, now);
    var b := Step(a, x, faults, now);
    var rest := walk[k + 1..];
    RunAround(Start(db), walk, faults, now, k);
    FailureSticks(b, rest, faults, now);
    FailureSticks(a, [x], faults, now);
    assert [x][..0] == [];
    RunKeepsConsistent(Start(db), walk[..k], faults, now);
    StepKeepsConsistent(a, x, faults, now);
    VisitedWorkTracks(a, x.name, x.path, x.children, faults, now);
    var wid := LookupByPath(b.db.works, x.path).value;
    forall j | 0 <= j < |rest| && IsWorkItem(rest[j]) ensures rest[j].path != x.path {
      assert rest[j] == walk[k + 1 + j];
    }
    OtherStepsKeepTracks(b, rest, faults, now, x.path, wid);
  }

  /** When none of the directory's track inserts fails, its work holds one
      track per audio file of the directory. */
  lemma WorkTracksWithoutFaults(db: Db, walk: seq<WalkItem>, faults: Faults, now: int, k: nat)
    requires Consistent(db)
    requires k < |walk| && IsWorkItem(walk[k])
    requires Run(Start(db), walk, faults, now).failure.None?
    requires forall j :: k < j < |walk| && IsWorkItem(walk[j]) ==> walk[j].path != walk[k].path
    requires forall c :: c in walk[k].children && IsAudioFile(c) ==> c.path !in faults.trackInsert
    ensures var final := Run(Start(db), walk, faults, now).db;
      var wid := LookupByPath(final.works, walk[k].path);
      wid.Some? && exists first :: TracksOf(final.tracks, wid.value) == NewTracks(wid.value, AudioFiles(walk[k].children), first)
  {
    WorkTracksAreItsAudioFiles(db, walk, faults, now, k);
    assert !ScanTracksOf(walk[k].children, faults).failed;
  }

  /** What the front end is then shown for that work: its audio files'
      tracks, each once, ordered by title. */
  lemma WorkTracksListed(db: Db, walk: seq<WalkItem>, faults: Faults, now: int, k: nat)
    requires Consistent(db)
    requires k < |walk| && IsWorkItem(walk[k])
    requires Run(Start(db), walk, faults, now).failure.None?
    requires forall j :: k < j < |walk| && IsWorkItem(walk[j]) ==> walk[j].path != walk[k].path
    requires forall c :: c in walk[k].children && IsAudioFile(c) ==> c.path !in faults.trackInsert
    ensures var final := Run(Start(db), walk, faults, now).db;
      var wid := LookupByPath(final.works, walk[k].path);
      wid.Some? &&
      var listed := GetWorkTracks(final.tracks, wid.value, None).value;
      SortedBy(listed, TitleOrder) &&
      exists first :: multiset(listed) == multiset(NewTracks(wid.value, AudioFiles(walk[k].children), first))
  {
    WorkTracksWithoutFaults(db, walk, faults, now, k);
    var final := Run(Start(db), walk, faults, now).db;
    var wid := LookupByPath(final.works, walk[k].path).value;
    var first :| TracksOf(final.tracks, wid) == NewTracks(wid, AudioFiles(walk[k].children), first);
    var listed := GetWorkTracks(final.tracks, wid, None).value;
    assert multiset(listed) == multiset(TracksOf(final.tracks, wid)) by {
      forall t ensures multiset(listed)[t] == multiset(TracksOf(final.tracks, wid))[t] {
      }
    }
  }
}
