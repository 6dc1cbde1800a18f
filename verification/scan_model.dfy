/** What `scan_library` does to the catalogue, as functions of the walk:
    the directory classification, the cover choice, the track rows a work
    directory yields, and one step of the scan loop folded over the walk.
    The imperative scanner in module Scanner is proved to follow these
    functions; the lemmas below state what the scan promises. */
module ScanModel {
  import opened Common
  import opened Text
  import opened Paths
  import opened CodeMatch
  import opened Catalog

  /** An entry of `fs::read_dir(dir)`: its file name, its path, whether
      `is_file()` holds, and its size when `metadata()` succeeds. */
  datatype Child = Child(name: string, path: string, isFile: bool, size: Option<nat>)

  /** An item of the recursive walk: an entry the walker could not read, or
      an entry with its file name, its path, whether `is_dir()` holds, and
      its listing (empty when the directory cannot be listed). */
  datatype WalkItem = Unreadable | Visited(name: string, path: string, isDir: bool, children: seq<Child>)

  /** Database writes that fail for reasons outside the model (I/O,
      locking), by the `dir_path` of the work or the `path` of the track. */
  datatype Faults = Faults(workInsert: set<string>, trackInsert: set<string>)

  /** Why an INSERT into `works` failed: the UNIQUE `rj_code` column, or an outside fault. */
  datatype DbError = DuplicateCode(code: string) | StorageFault(dirPath: string)

  /** Why `scan_library` returned an error: the root does not exist (the
      text "Directory does not exist"), or an INSERT into `works` failed
      (the database's error text, which the model keeps as its cause). */
  datatype ScanError = DirectoryMissing | InsertFailed(cause: DbError)

  /** The two tables and the next row ids the database will hand out. */
  datatype Db = Db(works: seq<WorkRow>, tracks: seq<Track>, nextWorkId: int, nextTrackId: int)

  /** `duration_sec` of a track row inserted without one (the column default). */
  const DefaultDuration := 0

  const AudioExtensions := ["mp3", "wav", "flac", "m4a", "ogg"]
  const ImageExtensions := ["jpg", "jpeg", "png", "webp", "bmp"]
  const CoverNames := ["cover", "folder", "front", "main", "jacket"]

  // ---------------------------------------------------------------------
  // Classification of directory entries

  /** `words.contains(&word)`: the word equals one of the list. */
  predicate OneOf(word: string, words: seq<string>)
    decreases |words|
  {
    words != [] && (word == words[0] || OneOf(word, words[1..]))
  }

  lemma {:induction false} OneOfIsIn(word: string, words: seq<string>)
    ensures OneOf(word, words) <==> word in words
    decreases |words|
  {
    if words != [] {
      OneOfIsIn(word, words[1..]);
      assert words == [words[0]] + words[1..];
    }
  }

  /** The lower-cased extension of `name` is one of `exts`. */
  predicate HasExtensionIn(name: string, exts: seq<string>) {
    Extension(name).Some? && OneOf(Lower(Extension(name).value), exts)
  }

  predicate IsAudioName(name: string) {
    HasExtensionIn(name, AudioExtensions)
  }

  /** `contains_audio_files`: some entry (file or not) has an audio extension. */
  predicate HasAudio(cs: seq<Child>) {
    exists k :: 0 <= k < |cs| && IsAudioName(cs[k].name)
  }

  predicate IsAudioFile(c: Child) {
    c.isFile && IsAudioName(c.name)
  }

  predicate IsImage(c: Child) {
    c.isFile && HasExtensionIn(c.name, ImageExtensions)
  }

  predicate IsPriorityImage(c: Child) {
    IsImage(c) && OneOf(Lower(FileStem(c.name)), CoverNames)
  }

  predicate IsSizedImage(c: Child) {
    IsImage(c) && c.size.Some?
  }

  /** A directory is a work when its name holds a catalogue code or it lists an audio entry. */
  predicate IsWorkDir(name: string, cs: seq<Child>) {
    FindCode(name).Some? || HasAudio(cs)
  }

  // ---------------------------------------------------------------------
  // find_cover_image

  /** Index of the first entry of `cs` that satisfies `p`. */
  function FirstWhere(cs: seq<Child>, p: Child -> bool): (r: Option<nat>)
    ensures r.Some? ==> r.value < |cs| && p(cs[r.value])
    ensures r.Some? ==> forall k :: 0 <= k < r.value ==> !p(cs[k])
    ensures r.None? ==> forall k :: 0 <= k < |cs| ==> !p(cs[k])
  {
    if cs == [] then None
    else
      var prefix := cs[..|cs| - 1];
      var before := FirstWhere(prefix, p);
      assert forall k :: 0 <= k < |prefix| ==> prefix[k] == cs[k];
      if before.Some? then before
      else if p(cs[|cs| - 1]) then Some(|cs| - 1)
      else None
  }

  /** Index of the largest entry of `cs` that has a size and satisfies `p`;
      the earliest of equals. */
  function LargestWhere(cs: seq<Child>, p: Child -> bool): (r: Option<nat>)
    ensures r.Some? ==> r.value < |cs| && p(cs[r.value]) && cs[r.value].size.Some?
    ensures r.Some? ==> forall k :: 0 <= k < |cs| && p(cs[k]) && cs[k].size.Some? ==> cs[k].size.value <= cs[r.value].size.value
    ensures r.Some? ==> forall k :: 0 <= k < r.value && p(cs[k]) && cs[k].size.Some? ==> cs[k].size.value < cs[r.value].size.value
    ensures r.None? ==> forall k :: 0 <= k < |cs| && p(cs[k]) ==> cs[k].size.None?
  {
    if cs == [] then None
    else
      var prefix := cs[..|cs| - 1];
      var before := LargestWhere(prefix, p);
      var last := cs[|cs| - 1];
      assert forall k :: 0 <= k < |prefix| ==> prefix[k] == cs[k];
      if p(last) && last.size.Some? && (before.None? || last.size.value > cs[before.value].size.value) then Some(|cs| - 1)
      else before
  }

  /** Index of the first image whose stem is a cover name. */
  function FirstPriority(cs: seq<Child>): Option<nat> {
    FirstWhere(cs, IsPriorityImage)
  }

  /** Index of the largest image whose size is known; the earliest of equals. */
  function Largest(cs: seq<Child>): Option<nat> {
    LargestWhere(cs, IsImage)
  }

  /** The cover a work directory gets: the first cover-named image, else the largest image, else none. */
  function CoverOf(cs: seq<Child>): Option<string> {
    match FirstPriority(cs)
    case Some(k) => Some(cs[k].path)
    case None =>
      match Largest(cs)
      case Some(k) => Some(cs[k].path)
      case None => None
  }

  /** The three cases of the cover choice, stated without the helper functions. */
  lemma CoverChoice(cs: seq<Child>)
    ensures (exists k :: 0 <= k < |cs| && IsPriorityImage(cs[k])) ==>
      exists k :: 0 <= k < |cs| && IsPriorityImage(cs[k]) && CoverOf(cs) == Some(cs[k].path) &&
        forall j :: 0 <= j < k ==> !IsPriorityImage(cs[j])
    ensures (forall k :: 0 <= k < |cs| ==> !IsPriorityImage(cs[k])) && (exists k :: 0 <= k < |cs| && IsSizedImage(cs[k])) ==>
      exists k :: 0 <= k < |cs| && IsSizedImage(cs[k]) && CoverOf(cs) == Some(cs[k].path) &&
        (forall j :: 0 <= j < |cs| && IsSizedImage(cs[j]) ==> cs[j].size.value <= cs[k].size.value) &&
        (forall j :: 0 <= j < k && IsSizedImage(cs[j]) ==> cs[j].size.value < cs[k].size.value)
    ensures (forall k :: 0 <= k < |cs| ==> !IsPriorityImage(cs[k]) && !IsSizedImage(cs[k])) ==> CoverOf(cs) == None
  {
    if FirstPriority(cs).Some? {
      var k := FirstPriority(cs).value;
      assert IsPriorityImage(cs[k]) && CoverOf(cs) == Some(cs[k].path);
    } else if Largest(cs).Some? {
      var k := Largest(cs).value;
      assert IsSizedImage(cs[k]) && CoverOf(cs) == Some(cs[k].path);
    }
  }

  // ---------------------------------------------------------------------
  // scan_tracks

  /** The entries of `xs` that satisfy `p`, in order. */
  function Filter<T(==,!new)>(xs: seq<T>, p: T -> bool): (r: seq<T>)
    ensures forall x :: x in r <==> x in xs && p(x)
  {
    if xs == [] then []
    else
      var last := xs[|xs| - 1];
      assert xs == xs[..|xs| - 1] + [last];
      Filter(xs[..|xs| - 1], p) + (if p(last) then [last] else [])
  }

  /** Each entry that satisfies `p` is kept as often as it occurs; the others are dropped. */
  lemma {:induction false} FilterCount<T(!new)>(xs: seq<T>, p: T -> bool, x: T)
    ensures multiset(Filter(xs, p))[x] == if p(x) then multiset(xs)[x] else 0
    decreases |xs|
  {
    if xs != [] {
      var n := |xs| - 1;
      FilterCount(xs[..n], p, x);
      assert xs == xs[..n] + [xs[n]];
    }
  }

  lemma {:induction false} FilterAppend<T(!new)>(a: seq<T>, b: seq<T>, p: T -> bool)
    ensures Filter(a + b, p) == Filter(a, p) + Filter(b, p)
    decreases |b|
  {
    if b == [] {
      assert a + b == a;
    } else {
      var n := |b| - 1;
      var ab := a + b;
      FilterSnoc(a, b, p);
      FilterAppend(a, b[..n], p);
    }
  }

  lemma FilterSnoc<T(!new)>(a: seq<T>, b: seq<T>, p: T -> bool)
    requires b != []
    ensures Filter(a + b, p) == Filter(a + b[..|b| - 1], p) + (if p(b[|b| - 1]) then [b[|b| - 1]] else [])
    ensures Filter(b, p) == Filter(b[..|b| - 1], p) + (if p(b[|b| - 1]) then [b[|b| - 1]] else [])
  {
    var ab := a + b;
    assert ab[..|ab| - 1] == a + b[..|b| - 1] && ab[|ab| - 1] == b[|b| - 1];
  }

  /** The audio files of a listing, in listing order, each as often as it is listed. */
  function AudioFiles(cs: seq<Child>): (r: seq<Child>)
    ensures forall c :: c in r <==> c in cs && IsAudioFile(c)
  {
    Filter(cs, IsAudioFile)
  }

  /** An audio file is listed among the audio files as often as in the listing. */
  lemma AudioFilesCount(cs: seq<Child>, c: Child)
    ensures multiset(AudioFiles(cs))[c] == if IsAudioFile(c) then multiset(cs)[c] else 0
  {
    FilterCount(cs, IsAudioFile, c);
  }

  /** Filtering the audio files of two listings one after the other is
      filtering each: the audio files keep the order of the listing. */
  lemma AudioFilesAppend(a: seq<Child>, b: seq<Child>)
    ensures AudioFiles(a + b) == AudioFiles(a) + AudioFiles(b)
  {
    FilterAppend(a, b, IsAudioFile);
  }

  /** A listing of one entry yields it iff it is an audio file. */
  lemma AudioFilesSingle(c: Child)
    ensures AudioFiles([c]) == if IsAudioFile(c) then [c] else []
  {
    assert [c][..0] == [];
    assert Filter([c], IsAudioFile) == Filter([c][..0], IsAudioFile) + (if IsAudioFile(c) then [c] else []);
  }

  /** What a loop gets through that attempts an INSERT for each entry
      `keep` selects, in order, and stops at the first one that `fails`:
      the entries inserted before it, and whether one failed. */
  datatype TrackScan<T> = TrackScan(inserted: seq<T>, failed: bool)

  function InsertRun<T(==,!new)>(xs: seq<T>, keep: T -> bool, fails: T -> bool): (r: TrackScan<T>)
    ensures !r.failed ==> r.inserted == Filter(xs, keep)
  {
    if xs == [] then TrackScan([], false)
    else
      var before := InsertRun(xs[..|xs| - 1], keep, fails);
      var last := xs[|xs| - 1];
      if before.failed || !keep(last) then before
      else if fails(last) then TrackScan(before.inserted, true)
      else TrackScan(before.inserted + [last], false)
  }

  /** Entry `j` is the first entry `keep` selects that `fails`. */
  predicate FirstFailing<T>(xs: seq<T>, j: int, keep: T -> bool, fails: T -> bool)
    requires 0 <= j < |xs|
  {
    keep(xs[j]) && fails(xs[j]) && forall i :: 0 <= i < j && keep(xs[i]) ==> !fails(xs[i])
  }

  lemma {:induction false} InsertRunFirstFailure<T(!new)>(xs: seq<T>, keep: T -> bool, fails: T -> bool)
    ensures !InsertRun(xs, keep, fails).failed <==> forall i :: 0 <= i < |xs| && keep(xs[i]) ==> !fails(xs[i])
    ensures InsertRun(xs, keep, fails).failed ==>
      exists j :: 0 <= j < |xs| && FirstFailing(xs, j, keep, fails) && InsertRun(xs, keep, fails).inserted == Filter(xs[..j], keep)
    decreases |xs|
  {
    if xs != [] {
      var n := |xs| - 1;
      var init := xs[..n];
      var before := InsertRun(init, keep, fails);
      InsertRunFirstFailure(init, keep, fails);
      assert forall i :: 0 <= i < n ==> init[i] == xs[i];
      if before.failed {
        var j :| 0 <= j < n && FirstFailing(init, j, keep, fails) && before.inserted == Filter(init[..j], keep);
        assert init[..j] == xs[..j];
        assert FirstFailing(xs, j, keep, fails);
      } else if keep(xs[n]) && fails(xs[n]) {
        assert xs[..n] == init;
        assert FirstFailing(xs, n, keep, fails);
      }
    }
  }

  /** The INSERT of a track row fails for the files at the faulty paths. */
  function TrackFaulted(faults: Faults): Child -> bool {
    (c: Child) => c.path in faults.trackInsert
  }

  /** `scan_tracks`: the audio files of the listing, inserted in order up to
      the first whose INSERT fails. */
  function ScanTracksOf(cs: seq<Child>, faults: Faults): (r: TrackScan<Child>)
    ensures !r.failed ==> r.inserted == AudioFiles(cs)
    ensures r.failed ==> exists c :: c in cs && IsAudioFile(c) && c.path in faults.trackInsert
  {
    InsertRunFirstFailure(cs, IsAudioFile, TrackFaulted(faults));
    InsertRun(cs, IsAudioFile, TrackFaulted(faults))
  }

  /** `scan_tracks` fails iff some audio file's INSERT fails, and then the
      files inserted are the audio files listed before the first such file. */
  lemma ScanTracksFirstFault(cs: seq<Child>, faults: Faults)
    ensures !ScanTracksOf(cs, faults).failed <==>
      forall i :: 0 <= i < |cs| && IsAudioFile(cs[i]) ==> cs[i].path !in faults.trackInsert
    ensures ScanTracksOf(cs, faults).failed ==>
      exists j :: 0 <= j < |cs| && FirstFailing(cs, j, IsAudioFile, TrackFaulted(faults)) &&
        ScanTracksOf(cs, faults).inserted == AudioFiles(cs[..j])
  {
    InsertRunFirstFailure(cs, IsAudioFile, TrackFaulted(faults));
  }

  /** The rows inserted for `files`, with consecutive ids from `firstId`. */
  function NewTracks(workId: int, files: seq<Child>, firstId: int): (r: seq<Track>)
    ensures |r| == |files|
    ensures forall k :: 0 <= k < |r| ==> r[k] == Track(firstId + k, workId, FileStem(files[k].name), files[k].path, DefaultDuration)
  {
    seq(|files|, k requires 0 <= k < |files| => Track(firstId + k, workId, FileStem(files[k].name), files[k].path, DefaultDuration))
  }

  /** `DELETE FROM tracks WHERE work_id = ?`: the other rows, in order. */
  function WithoutWork(tracks: seq<Track>, workId: int): (r: seq<Track>)
    ensures forall t :: t in r <==> t in tracks && t.workId != workId
  {
    if tracks == [] then []
    else
      var rest := WithoutWork(tracks[..|tracks| - 1], workId);
      var last := tracks[|tracks| - 1];
      assert tracks == tracks[..|tracks| - 1] + [last];
      if last.workId != workId then
        assert forall t :: t in rest ==> t in tracks[..|tracks| - 1];
        rest + [last]
      else rest
  }

  /** The DELETE keeps ascending track ids ascending. */
  lemma {:induction false} WithoutWorkKeepsOrder(tracks: seq<Track>, workId: int)
    requires forall i, j :: 0 <= i < j < |tracks| ==> tracks[i].id < tracks[j].id
    ensures forall i, j :: 0 <= i < j < |WithoutWork(tracks, workId)| ==>
      WithoutWork(tracks, workId)[i].id < WithoutWork(tracks, workId)[j].id
    decreases |tracks|
  {
    if tracks != [] {
      var init := tracks[..|tracks| - 1];
      var last := tracks[|tracks| - 1];
      var rest := WithoutWork(init, workId);
      WithoutWorkKeepsOrder(init, workId);
      if last.workId != workId {
        var r := rest + [last];
        assert WithoutWork(tracks, workId) == r;
        forall i, j | 0 <= i < j < |r| ensures r[i].id < r[j].id {
          if j == |rest| {
            assert r[i] == rest[i] && r[j] == last;
            assert rest[i] in init;
            var m :| 0 <= m < |init| && init[m] == rest[i];
            assert tracks[m] == init[m];
          } else {
            assert r[i] == rest[i] && r[j] == rest[j];
          }
        }
      } else {
        assert WithoutWork(tracks, workId) == rest;
      }
    }
  }

  /** The tracks of work `workId` are deleted and one row per audio file of
      the listing is inserted, up to the first insert that fails. */
  function ReplaceTracks(db: Db, workId: int, cs: seq<Child>, faults: Faults): (r: Db)
    ensures r.works == db.works && r.nextWorkId == db.nextWorkId
  {
    var files := ScanTracksOf(cs, faults).inserted;
    db.(tracks := WithoutWork(db.tracks, workId) + NewTracks(workId, files, db.nextTrackId),
        nextTrackId := db.nextTrackId + |files|)
  }

  // ---------------------------------------------------------------------
  // The works table

  /** `SELECT id FROM works WHERE dir_path = ?`. */
  function LookupByPath(works: seq<WorkRow>, path: string): (r: Option<int>)
    ensures r.Some? ==> exists k :: 0 <= k < |works| && works[k].work.dirPath == path && works[k].work.id == r.value
    ensures r.None? ==> forall k :: 0 <= k < |works| ==> works[k].work.dirPath != path
  {
    if works == [] then None
    else if works[0].work.dirPath == path then Some(works[0].work.id)
    else
      var r := LookupByPath(works[1..], path);
      assert r.Some? ==> exists k :: 0 <= k < |works| && works[k].work.dirPath == path && works[k].work.id == r.value by {
        if r.Some? {
          var k :| 0 <= k < |works[1..]| && works[1..][k].work.dirPath == path && works[1..][k].work.id == r.value;
          assert works[k + 1] == works[1..][k];
        }
      }
      r
  }

  predicate CodeTaken(works: seq<WorkRow>, code: string) {
    exists k :: 0 <= k < |works| && works[k].work.rjCode == Some(code)
  }

  /** Why `INSERT INTO works` would fail for this directory, if it would. */
  function InsertFailure(works: seq<WorkRow>, code: Option<string>, path: string, faults: Faults): Option<DbError> {
    if code.Some? && CodeTaken(works, code.value) then Some(DuplicateCode(code.value))
    else if path in faults.workInsert then Some(StorageFault(path))
    else None
  }

  /** The invariant the database keeps: ids ascending and below the next
      id, one work per directory, one work per catalogue code, and every
      track belonging to a stored work. */
  ghost predicate Consistent(db: Db) {
    (forall i, j :: 0 <= i < j < |db.works| ==> db.works[i].work.id < db.works[j].work.id) &&
    (forall i :: 0 <= i < |db.works| ==> db.works[i].work.id < db.nextWorkId) &&
    (forall i, j :: 0 <= i < j < |db.works| ==> db.works[i].work.dirPath != db.works[j].work.dirPath) &&
    (forall i, j :: 0 <= i < j < |db.works| && db.works[i].work.rjCode.Some? ==> db.works[i].work.rjCode != db.works[j].work.rjCode) &&
    (forall i, j :: 0 <= i < j < |db.tracks| ==> db.tracks[i].id < db.tracks[j].id) &&
    (forall i :: 0 <= i < |db.tracks| ==> db.tracks[i].id < db.nextTrackId) &&
    (forall t :: t in db.tracks ==> HasWork(db.works, t.workId))
  }

  predicate HasWork(works: seq<WorkRow>, id: int) {
    exists k :: 0 <= k < |works| && works[k].work.id == id
  }

  // ---------------------------------------------------------------------
  // The scan loop

  /** The loop's variables: the database, `count`, the `scan-progress`
      payloads emitted so far, and the error that ended the loop, if any. */
  datatype ScanState = ScanState(db: Db, count: nat, events: seq<nat>, failure: Option<DbError>)

  function Start(db: Db): ScanState {
    ScanState(db, 0, [], None)
  }

  /** A work directory obtained id `workId`: count it, replace its tracks, emit the count. */
  function Processed(st: ScanState, workId: int, cs: seq<Child>, faults: Faults): ScanState {
    ScanState(ReplaceTracks(st.db, workId, cs, faults), st.count + 1, st.events + [st.count + 1], None)
  }

  /** A work directory: reuse the row with its `dir_path`, or insert one. */
  function VisitWork(st: ScanState, name: string, path: string, cs: seq<Child>, faults: Faults, now: int): (r: ScanState)
    ensures r.failure.Some? ==> r.db == st.db && r.count == st.count && r.events == st.events
    ensures r.failure.None? ==> r.count == st.count + 1 && r.events == st.events + [r.count]
  {
    match LookupByPath(st.db.works, path)
    case Some(id) => Processed(st, id, cs, faults)
    case None =>
      var code := FindCode(name);
      match InsertFailure(st.db.works, code, path, faults)
      case Some(e) => st.(failure := Some(e))
      case None =>
        var id := st.db.nextWorkId;
        var row := WorkRow(Work(id, code, name, path, CoverOf(cs)), now);
        Processed(st.(db := st.db.(works := st.db.works + [row], nextWorkId := id + 1)), id, cs, faults)
  }

  /** The walk item is a directory that is a work. */
  predicate IsWorkItem(item: WalkItem) {
    item.Visited? && item.isDir && IsWorkDir(item.name, item.children)
  }

  /** One iteration of the walk loop. */
  function Step(st: ScanState, item: WalkItem, faults: Faults, now: int): (r: ScanState)
    ensures st.failure.Some? ==> r == st
    ensures |r.events| - |st.events| == r.count - st.count
  {
    if st.failure.Some? || !IsWorkItem(item) then st
    else VisitWork(st, item.name, item.path, item.children, faults, now)
  }

  /** The loop over the whole walk. */
  function Run(st: ScanState, walk: seq<WalkItem>, faults: Faults, now: int): (r: ScanState)
    ensures |r.events| - |st.events| == r.count - st.count
    decreases |walk|
  {
    if walk == [] then st
    else Step(Run(st, walk[..|walk| - 1], faults, now), walk[|walk| - 1], faults, now)
  }

  /** What `scan_library` returns, the catalogue it leaves and the events it emits. */
  datatype ScanOutcome = ScanOutcome(result: Result<nat, ScanError>, db: Db, events: seq<nat>)

  function Scan(db: Db, rootExists: bool, walk: seq<WalkItem>, faults: Faults, now: int): (r: ScanOutcome)
    ensures !rootExists ==> r == ScanOutcome(Err(DirectoryMissing), db, [])
    ensures r.result.Ok? ==> r.result.value == |r.events|
  {
    if !rootExists then ScanOutcome(Err(DirectoryMissing), db, [])
    else
      var st := Run(Start(db), walk, faults, now);
      ScanOutcome(if st.failure.Some? then Err(InsertFailed(st.failure.value)) else Ok(st.count), st.db, st.events)
  }

  /** The number of walk items that are work directories. */
  function WorkDirCount(walk: seq<WalkItem>): nat {
    if walk == [] then 0
    else
      var last := walk[|walk| - 1];
      WorkDirCount(walk[..|walk| - 1]) + (if IsWorkItem(last) then 1 else 0)
  }
}
