/** The scanner as the program runs it: loops over directory listings and
    over the walk, writing to a catalogue object that holds the `works` and
    `tracks` tables. Each method is proved to compute what module ScanModel
    defines, so the lemmas of ScanProperties hold of it. */
module Scanner {
  import opened Common
  import opened Paths
  import opened CodeMatch
  import opened Catalog
  import opened ScanModel
  import opened ScanProperties

  /** `contains_audio_files`: stops at the first entry with an audio extension. */
  method ContainsAudioFiles(cs: seq<Child>) returns (r: bool)
    ensures r <==> exists k :: 0 <= k < |cs| && IsAudioName(cs[k].name)
  {
    var i := 0;
    while i < |cs|
      invariant 0 <= i <= |cs|
      invariant !HasAudio(cs[..i])
    {
      HasAudioNext(cs, i);
      if IsAudioName(cs[i].name) {
        return true;
      }
      i := i + 1;
    }
    assert cs[..i] == cs;
    return false;
  }

  /** Looking at one more entry finds an audio entry iff it is one or one was seen before. */
  lemma HasAudioNext(cs: seq<Child>, i: nat)
    requires i < |cs|
    ensures HasAudio(cs[..i + 1]) <==> HasAudio(cs[..i]) || IsAudioName(cs[i].name)
    ensures IsAudioName(cs[i].name) ==> HasAudio(cs)
  {
    assert cs[..i + 1][i] == cs[i];
    if HasAudio(cs[..i + 1]) {
      var k :| 0 <= k < i + 1 && IsAudioName(cs[..i + 1][k].name);
      if k < i {
        assert cs[..i][k] == cs[..i + 1][k];
      }
    }
    if HasAudio(cs[..i]) {
      var k :| 0 <= k < i && IsAudioName(cs[..i][k].name);
      assert cs[..i + 1][k] == cs[..i][k];
    }
  }

  /** Looking at one more entry that fails `p` leaves the search for the first one empty-handed. */
  lemma FirstWhereNext(cs: seq<Child>, i: nat, p: Child -> bool)
    requires i < |cs| && FirstWhere(cs[..i], p).None? && !p(cs[i])
    ensures FirstWhere(cs[..i + 1], p).None?
  {
    assert cs[..i + 1][..i] == cs[..i];
  }

  /** Looking at one more entry replaces the largest so far only when the
      new entry is strictly larger. */
  lemma LargestWhereNext(cs: seq<Child>, i: nat, p: Child -> bool)
    requires i < |cs|
    ensures var before := LargestWhere(cs[..i], p);
      LargestWhere(cs[..i + 1], p) ==
        if p(cs[i]) && cs[i].size.Some? && (before.None? || cs[i].size.value > cs[before.value].size.value)
        then Some(i) else before
  {
    assert cs[..i + 1][..i] == cs[..i];
    var before := LargestWhere(cs[..i], p);
    if before.Some? {
      assert cs[..i + 1][before.value] == cs[before.value];
    }
  }

  /** The first entry satisfying `p`, met at `i` after none before it. */
  lemma FirstWhereFound(cs: seq<Child>, i: nat, p: Child -> bool)
    requires i < |cs| && FirstWhere(cs[..i], p).None? && p(cs[i])
    ensures FirstWhere(cs, p) == Some(i)
  {
    forall k | 0 <= k < i ensures !p(cs[k]) {
      assert cs[..i][k] == cs[k];
    }
  }

  /** `find_cover_image`: returns the first cover-named image as soon as it
      is seen, and otherwise the largest image seen, the earliest of equals. */
  method FindCoverImage(cs: seq<Child>) returns (cover: Option<string>)
    ensures cover == CoverOf(cs)
  {
    var best: Option<(nat, string)> := None;
    ghost var bestAt: Option<nat> := None;
    var i := 0;
    while i < |cs|
      invariant 0 <= i <= |cs|
      invariant FirstPriority(cs[..i]).None?
      invariant bestAt == Largest(cs[..i])
      invariant bestAt.Some? ==> bestAt.value < i && cs[bestAt.value].size.Some?
      invariant best == if bestAt.Some? then Some((cs[bestAt.value].size.value, cs[bestAt.value].path)) else None
    {
      var c := cs[i];
      if IsPriorityImage(c) {
        FirstWhereFound(cs, i, IsPriorityImage);
        return Some(c.path);
      }
      FirstWhereNext(cs, i, IsPriorityImage);
      LargestWhereNext(cs, i, IsImage);
      if IsImage(c) && c.size.Some? && (best.None? || c.size.value > best.value.0) {
        best := Some((c.size.value, c.path));
        bestAt := Some(i);
      }
      i := i + 1;
    }
    assert cs[..i] == cs;
    cover := if best.Some? then Some(best.value.1) else None;
  }

  /** `scan_tracks` over one more entry. */
  lemma TrackScanNext(cs: seq<Child>, i: nat, faults: Faults)
    requires i < |cs|
    ensures var before := ScanTracksOf(cs[..i], faults);
      ScanTracksOf(cs[..i + 1], faults) ==
        if before.failed || !IsAudioFile(cs[i]) then before
        else if cs[i].path in faults.trackInsert then TrackScan(before.inserted, true)
        else TrackScan(before.inserted + [cs[i]], false)
  {
    assert cs[..i + 1][..i] == cs[..i];
  }

  /** The rows for one more file: the next id, the same work. */
  lemma NewTracksNext(workId: int, files: seq<Child>, c: Child, first: int)
    ensures NewTracks(workId, files + [c], first) ==
      NewTracks(workId, files, first) + [Track(first + |files|, workId, FileStem(c.name), c.path, DefaultDuration)]
  {
  }

  /** Once an insert of `scan_tracks` has failed, the later entries change nothing. */
  lemma {:induction false} TrackScanStops(cs: seq<Child>, i: nat, faults: Faults)
    requires i <= |cs| && ScanTracksOf(cs[..i], faults).failed
    ensures ScanTracksOf(cs, faults) == ScanTracksOf(cs[..i], faults)
    decreases |cs| - i
  {
    if i < |cs| {
      TrackScanNext(cs, i, faults);
      TrackScanStops(cs, i + 1, faults);
    } else {
      assert cs[..i] == cs;
    }
  }

  /** The catalogue database: the two tables and the ids it hands out next. */
  class Library {
    var works: seq<WorkRow>
    var tracks: seq<Track>
    var nextWorkId: int
    var nextTrackId: int

    function Snapshot(): Db
      reads this
    {
      Db(works, tracks, nextWorkId, nextTrackId)
    }

    ghost predicate Valid()
      reads this
    {
      Consistent(Snapshot())
    }

    /** An empty catalogue; SQLite numbers rows from 1. */
    constructor ()
      ensures Snapshot() == Db([], [], 1, 1) && Valid()
    {
      works, tracks, nextWorkId, nextTrackId := [], [], 1, 1;
    }

    /** `INSERT INTO works ... RETURNING id`: fails on a catalogue code
        already stored or an outside fault, and otherwise appends the row
        with the next id and returns that id. */
    method InsertWork(code: Option<string>, title: string, path: string, cover: Option<string>, faults: Faults, now: int)
      returns (r: Result<int, DbError>)
      modifies this
      ensures InsertFailure(old(works), code, path, faults).Some? ==>
        r == Err(InsertFailure(old(works), code, path, faults).value) && Snapshot() == old(Snapshot())
      ensures InsertFailure(old(works), code, path, faults).None? ==>
        r == Ok(old(nextWorkId)) &&
        works == old(works) + [WorkRow(Work(old(nextWorkId), code, title, path, cover), now)] &&
        nextWorkId == old(nextWorkId) + 1 && tracks == old(tracks) && nextTrackId == old(nextTrackId)
    {
      var failure := InsertFailure(works, code, path, faults);
      if failure.Some? {
        return Err(failure.value);
      }
      r := Ok(nextWorkId);
      works := works + [WorkRow(Work(nextWorkId, code, title, path, cover), now)];
      nextWorkId := nextWorkId + 1;
    }

    /** `DELETE FROM tracks WHERE work_id = ?`. */
    method DeleteTracks(workId: int)
      modifies this
      ensures tracks == WithoutWork(old(tracks), workId)
      ensures works == old(works) && nextWorkId == old(nextWorkId) && nextTrackId == old(nextTrackId)
    {
      tracks := WithoutWork(tracks, workId);
    }

    /** `scan_tracks`: one row per audio file of the listing, in listing
        order, titled by the file stem; the first insert that fails ends it. */
    method ScanTracks(workId: int, cs: seq<Child>, faults: Faults) returns (ok: bool)
      modifies this
      ensures ok == !ScanTracksOf(cs, faults).failed
      ensures tracks == old(tracks) + NewTracks(workId, ScanTracksOf(cs, faults).inserted, old(nextTrackId))
      ensures nextTrackId == old(nextTrackId) + |ScanTracksOf(cs, faults).inserted|
      ensures works == old(works) && nextWorkId == old(nextWorkId)
    {
      var i := 0;
      ghost var scan := ScanTracksOf([], faults);
      assert cs[..0] == [];
      while i < |cs|
        invariant 0 <= i <= |cs|
        invariant scan == ScanTracksOf(cs[..i], faults) && !scan.failed
        invariant tracks == old(tracks) + NewTracks(workId, scan.inserted, old(nextTrackId))
        invariant nextTrackId == old(nextTrackId) + |scan.inserted|
        invariant works == old(works) && nextWorkId == old(nextWorkId)
      {
        var c := cs[i];
        TrackScanNext(cs, i, faults);
        if IsAudioFile(c) {
          if c.path in faults.trackInsert {
            TrackScanStops(cs, i + 1, faults);
            return false;
          }
          var row := Track(nextTrackId, workId, FileStem(c.name), c.path, DefaultDuration);
          ghost var added := NewTracks(workId, scan.inserted, old(nextTrackId));
          NewTracksNext(workId, scan.inserted, c, old(nextTrackId));
          assert NewTracks(workId, scan.inserted + [c], old(nextTrackId)) == added + [row];
          tracks := tracks + [row];
          assert tracks == old(tracks) + (added + [row]);
          nextTrackId := nextTrackId + 1;
          scan := TrackScan(scan.inserted + [c], false);
        }
        i := i + 1;
      }
      assert cs[..i] == cs;
      return true;
    }

    /** The tracks of a work directory found or inserted: its old rows
        deleted, then `scan_tracks`, whose failure the scan ignores. */
    method ReplaceWorkTracks(workId: int, cs: seq<Child>, faults: Faults)
      modifies this
      ensures Snapshot() == ReplaceTracks(old(Snapshot()), workId, cs, faults)
      ensures old(Valid()) && HasWork(old(works), workId) ==> Valid()
    {
      assert Valid() && HasWork(works, workId) ==> Consistent(ReplaceTracks(Snapshot(), workId, cs, faults)) by {
        if Valid() && HasWork(works, workId) {
          ReplaceTracksKeepsConsistent(Snapshot(), workId, cs, faults);
        }
      }
      DeleteTracks(workId);
      var _ := ScanTracks(workId, cs, faults);
    }

    /** The body of `scan_library` for a directory that is a work: reuse
        the row stored for its `dir_path` or insert one, then replace its
        tracks and count it; a failed insert is returned instead. */
    method VisitWorkDir(name: string, path: string, cs: seq<Child>, code: Option<string>, faults: Faults, now: int,
                        count: nat, events: seq<nat>)
      returns (count': nat, events': seq<nat>, failure: Option<DbError>)
      requires code == FindCode(name)
      modifies this
      ensures var r := VisitWork(ScanState(old(Snapshot()), count, events, None), name, path, cs, faults, now);
        Snapshot() == r.db && count' == r.count && events' == r.events && failure == r.failure
      ensures old(Valid()) ==> Valid()
    {
      ghost var st := ScanState(Snapshot(), count, events, None);
      VisitWorkCases(st, name, path, cs, faults, now);
      var cover := FindCoverImage(cs);
      var workId: int;
      var existing := LookupByPath(works, path);
      if existing.Some? {
        workId := existing.value;
        assert VisitWork(st, name, path, cs, faults, now) == Processed(st, workId, cs, faults);
      } else {
        var inserted := InsertWork(code, name, path, cover, faults, now);
        if inserted.Err? {
          return count, events, Some(inserted.error);
        }
        workId := inserted.value;
        ghost var row := WorkRow(Work(st.db.nextWorkId, code, name, path, cover), now);
        assert Snapshot() == st.db.(works := st.db.works + [row], nextWorkId := st.db.nextWorkId + 1);
      }
      assert VisitWork(st, name, path, cs, faults, now) == Processed(ScanState(Snapshot(), count, events, None), workId, cs, faults);
      ReplaceWorkTracks(workId, cs, faults);
      count' := count + 1;
      events' := events + [count'];
      failure := None;
      assert old(Valid()) ==> Valid() by {
        if old(Valid()) {
          VisitWorkKeepsConsistent(st, name, path, cs, faults, now);
        }
      }
    }

    /** `scan_library`: every directory of the walk that is a work is
        found by its `dir_path` or inserted, its tracks are replaced and a
        progress event carries the running count; an insert that fails
        ends the scan with that error. */
    method ScanLibrary(rootExists: bool, walk: seq<WalkItem>, faults: Faults, now: int)
      returns (result: Result<nat, ScanError>, events: seq<nat>)
      modifies this
      ensures result == Scan(old(Snapshot()), rootExists, walk, faults, now).result
      ensures events == Scan(old(Snapshot()), rootExists, walk, faults, now).events
      ensures Snapshot() == Scan(old(Snapshot()), rootExists, walk, faults, now).db
      ensures old(Valid()) ==> Valid()
    {
      ghost var db0 := Snapshot();
      if !rootExists {
        return Err(DirectoryMissing), [];
      }
      RunKeepsConsistentIf(db0, walk, faults, now);
      var count: nat := 0;
      events := [];
      var i := 0;
      while i < |walk|
        invariant 0 <= i <= |walk|
        invariant Run(Start(db0), walk[..i], faults, now) == ScanState(Snapshot(), count, events, None)
      {
        var item := walk[i];
        RunNext(Start(db0), walk, faults, now, i);
        if item.Visited? && item.isDir {
          var isWork := false;
          var code := FindCode(item.name);
          if code.Some? {
            isWork := true;
          } else {
            isWork := ContainsAudioFiles(item.children);
          }
          if isWork {
            var failure;
            count, events, failure := VisitWorkDir(item.name, item.path, item.children, code, faults, now, count, events);
            if failure.Some? {
              RunStopsAt(Start(db0), walk, faults, now, i + 1);
              return Err(InsertFailed(failure.value)), events;
            }
          }
        }
        i := i + 1;
      }
      assert walk[..i] == walk;
      return Ok(count), events;
    }
  }

  /** The loop over `walk[..i + 1]` is the loop over `walk[..i]` and one more step. */
  lemma RunNext(st: ScanState, walk: seq<WalkItem>, faults: Faults, now: int, i: nat)
    requires i < |walk|
    ensures Run(st, walk[..i + 1], faults, now) == Step(Run(st, walk[..i], faults, now), walk[i], faults, now)
  {
    assert walk[..i + 1][..i] == walk[..i];
  }

  /** A loop that has failed after `walk[..i]` ends as it stands there. */
  lemma RunStopsAt(st: ScanState, walk: seq<WalkItem>, faults: Faults, now: int, i: nat)
    requires i <= |walk| && Run(st, walk[..i], faults, now).failure.Some?
    ensures Run(st, walk, faults, now) == Run(st, walk[..i], faults, now)
  {
    assert walk == walk[..i] + walk[i..];
    RunSplit(st, walk[..i], walk[i..], faults, now);
    RunAfterFailure(Run(st, walk[..i], faults, now), walk[i..], faults, now);
  }

  lemma RunKeepsConsistentIf(db: Db, walk: seq<WalkItem>, faults: Faults, now: int)
    ensures Consistent(db) ==> Consistent(Run(Start(db), walk, faults, now).db)
  {
    if Consistent(db) {
      RunKeepsConsistent(Start(db), walk, faults, now);
    }
  }
}
