# asmr-player backend, modelled in Dafny

This project models the Rust backend of asmr-player, a desktop player for
ASMR audio works. It covers four parts:

- **The library scanner.** It walks a folder tree and treats a directory as
  a *work* when its name holds a catalogue code (`RJ` or `BJ` and 6 to 8
  digits) or it lists an audio file. It picks a cover image for each work
  and records works and tracks in the `works` and `tracks` tables.
- **Playback.** This is the sample tap that cuts the decoded stream into
  1024-sample chunks for the visualiser, the spawned task that turns those chunks
  into `spectrum-update` and `playback-progress` events, and the state
  behind the play, pause, resume, seek and volume commands.
- **The DLsite scraper.** It fills title, circle, voice actors and tags
  from a product page, trying the adult catalogue and then the all-ages one.
- **The catalogue read queries.** These are `get_all_works`,
  `get_work_tracks` and `greet`.

Each part keeps the form of the Rust code. Loops become methods with loop
invariants. State that the Rust updates in place lives in classes:
- `Scanner.Library` holds the two tables;
- `Audio.VisualizerSource` holds the chunking buffer;
- `Audio.AudioState` holds the player.

Every method is proved equal to a specification function over the old
state. The properties of those functions are proved as lemmas:
- the scanner keeps the database invariant;
- a rescan inserts no work;
- each work ends up with exactly the rows for its audio files;
- the k-th progress event carries k;
- the chunks plus the buffer spell every sample pulled;
- what each command does to the player;
- which rows feed which metadata list.

Layout:

| file | contents |
|---|---|
| `common.dfy` | `Option`, `Result`, `Outcome` |
| `text.dfy` | Rust's `trim`, `contains`, ASCII `to_lowercase`; the byte order SQLite sorts text by |
| `paths.dfy` | `Path::file_stem` and `Path::extension` of a file name |
| `code_match.dfy` | the `(RJ|BJ)\d{6,8}` search, leftmost and greedy |
| `catalog.dfy` | the `Work`/`Track` records, `greet`, `get_all_works`, `get_work_tracks` |
| `scan_model.dfy` | the scan as functions: classification, cover choice, track rows, one loop step, the fold |
| `scan_properties.dfy` | lemmas about the scan |
| `scanner.dfy` | the scanner's loops and the `Library` class |
| `audio.dfy` | `VisualizerSource`, the event task, `AudioState` and its commands |
| `scraper.dfy` | `parse_dlsite_html` and `fetch_dlsite_metadata` |

The outside world is given to the model as input:
- **Directory tree.** A walk is a sequence of items in walk order. An item
  is either an entry the walker could not read or an entry with its name,
  path, whether it is a directory, and its listing. Each listing entry has
  a name, a path, whether it is a file, and a size when `metadata()`
  succeeds.
- **Database failures.** `Faults` lists the paths whose INSERT fails for
  reasons outside the model.
- **Time.** `now` is the `created_at` stamp of the scan.
- **Audio.** Whether the output device and a sink can be opened is an
  `Outcome`. What opening and decoding a file gives is a `Media` value.
- **Spectrum and clock.** The FFT is a function from a chunk to an optional
  bin list. Whether the 250 ms clock has run out after each chunk is a
  `due` sequence.
- **Web pages.** A page is what the CSS selectors pick out of it, in
  document order. The network is a function from a request to a response
  or a transport error.

Four behaviours of the code are easy to miss:
- A new sink is created for every play and seek, so the volume goes back
  to 1.0 each time.
- `get_work_tracks` returns every track of the work. Tracks carry no
  visibility flag.
- A duplicate catalogue code on INSERT aborts the scan with an error.
- A file that cannot be opened or decoded is reported at once. There is
  no second decoder to fall back on.

## Model

| member | source | states |
|---|---|---|
| Catalog.Greet | asmr-player/src-tauri/src/lib.rs:9-12 | the greeting is the fixed head, the name, then the fixed tail, so the name can be read back from between them |
| Catalog.SortBy | asmr-player/src-tauri/src/lib.rs:25 | ORDER BY: the result is a permutation (same multiset) of the rows and is sorted by the given total preorder |
| Catalog.NewerIsTotalPreorder | asmr-player/src-tauri/src/lib.rs:25 | `created_at DESC` is a total preorder on work rows |
| Catalog.WorksOfPermutation | asmr-player/src-tauri/src/lib.rs:25-30 | mapping a permutation of the rows to their works gives a permutation of the works |
| Catalog.GetAllWorksEachOnce | asmr-player/src-tauri/src/lib.rs:23-30 | a successful `get_all_works` lists every stored work as often as its row is stored |
| Catalog.GetAllWorks | asmr-player/src-tauri/src/lib.rs:23-30 | a failing query gives its message; otherwise every work row, each exactly once, newest `created_at` first |
| Catalog.TracksOf | asmr-player/src-tauri/src/lib.rs:44 | `WHERE work_id = ?`: a track is kept iff its work id matches, and then as often as it is in the table |
| Catalog.TitleOrderIsTotalPreorder | asmr-player/src-tauri/src/lib.rs:44 | `ORDER BY title ASC` is a total preorder on tracks |
| Catalog.GetWorkTracks | asmr-player/src-tauri/src/lib.rs:42-50 | a failing query gives its message; otherwise the tracks of the work, each as often as stored, sorted by title |
| Catalog.GetWorkTracksMembers | asmr-player/src-tauri/src/lib.rs:44 | a track is listed for a work iff it is a row of that work |
| Text.Trim | asmr-player/src-tauri/src/scraper.rs:66 | `trim`: the result is a slice of the input with no white space at either end, and everything cut off is white space |
| Text.ContainsOccurs | asmr-player/src-tauri/src/scraper.rs:82 | `contains` holds iff the pattern occurs at some index of the text |
| Text.LowerFolds | asmr-player/src-tauri/src/scanner.rs:142 | `to_lowercase` keeps the length, lowers each capital letter, keeps every other character, leaves no capital and is idempotent |
| Text.LexLeTotal | asmr-player/src-tauri/src/lib.rs:44 | any two titles are ordered one way or the other |
| Text.LexLeTransitive | asmr-player/src-tauri/src/lib.rs:44 | the title order is transitive |
| Text.LexLeAntisymmetric | asmr-player/src-tauri/src/lib.rs:44 | titles ordered both ways are equal |
| Paths.ExtensionSplits | asmr-player/src-tauri/src/scanner.rs:141 | `Path::extension`: present iff some dot other than a leading one exists (and the name is not ".."); stem, dot and extension then spell the name, and the extension has no dot |
| CodeMatch.MatchLength | asmr-player/src-tauri/src/scanner.rs:20 | a match is the two-letter prefix and 6 to 8 digits, all digits; it stops short of eight digits only where the digit run ends |
| CodeMatch.LeftmostFrom | asmr-player/src-tauri/src/scanner.rs:60 | the first position from `i` where the pattern matches, none before it; none when no position matches |
| CodeMatch.FindCode | asmr-player/src-tauri/src/scanner.rs:60-61 | no code iff the pattern matches nowhere; otherwise the code is the greedy match at the leftmost matching position |
| CodeMatch.FoundCodeShape | asmr-player/src-tauri/src/scanner.rs:20 | a code found is "RJ" or "BJ" and 6 to 8 digits |
| CodeMatch.FindCodeIdempotent | asmr-player/src-tauri/src/scanner.rs:60-61 | searching an extracted code again yields the same code |
| CodeMatch.NineDigitsExample | asmr-player/src-tauri/src/scanner.rs:20 | "RJ123456789" yields "RJ12345678" |
| CodeMatch.ShortRunExample | asmr-player/src-tauri/src/scanner.rs:60 | a prefix with too few digits is passed over for a later match |
| ScanModel.FirstWhere | asmr-player/src-tauri/src/scanner.rs:171-173 | the index of the first entry satisfying the test, or none when no entry does |
| ScanModel.LargestWhere | asmr-player/src-tauri/src/scanner.rs:176-180 | the index of a sized entry satisfying the test that no other is larger than, the earliest of equals; none when no such entry has a size |
| ScanModel.CoverChoice | asmr-player/src-tauri/src/scanner.rs:152-189 | the cover is the first cover-named image; otherwise the earliest largest image with a known size; otherwise none |
| ScanModel.AudioFiles | asmr-player/src-tauri/src/scanner.rs:197-201 | an entry is kept iff it is a file with an audio extension |
| ScanModel.OneOfIsIn | asmr-player/src-tauri/src/scanner.rs:143 | the membership test against a list of extensions holds iff the word is in the list |
| ScanModel.ScanTracksOf | asmr-player/src-tauri/src/scanner.rs:191-222 | without a failing INSERT every audio file is inserted; a failure is caused by an audio file whose INSERT fails |
| ScanModel.ScanTracksFirstFault | asmr-player/src-tauri/src/scanner.rs:191-222 | `scan_tracks` fails iff some audio file's INSERT fails; the files inserted are then the audio files listed before the first such file |
| ScanModel.InsertRunFirstFailure | asmr-player/src-tauri/src/scanner.rs:197-216 | an insert loop that stops at the first failure fails iff a selected entry fails, and has then inserted the selected entries before the first failing one |
| ScanModel.Filter | asmr-player/src-tauri/src/scanner.rs:197-201 | an entry is kept iff it passes the test |
| ScanModel.FilterCount | asmr-player/src-tauri/src/scanner.rs:197-201 | an entry that passes is kept as often as it is listed; one that fails is dropped |
| ScanModel.FilterAppend | asmr-player/src-tauri/src/scanner.rs:197-201 | filtering two listings one after the other is filtering each, in order |
| ScanModel.AudioFilesCount | asmr-player/src-tauri/src/scanner.rs:197-201 | an audio file is among the audio files as often as it is listed; nothing else is |
| ScanModel.AudioFilesAppend | asmr-player/src-tauri/src/scanner.rs:197-201 | the audio files keep the listing order |
| ScanModel.AudioFilesSingle | asmr-player/src-tauri/src/scanner.rs:197-201 | a one-entry listing yields that entry iff it is an audio file |
| ScanModel.WithoutWork | asmr-player/src-tauri/src/scanner.rs:123-126 | a row survives the DELETE iff it belongs to another work |
| ScanModel.WithoutWorkKeepsOrder | asmr-player/src-tauri/src/scanner.rs:123-126 | the DELETE keeps ascending track ids ascending |
| ScanModel.ReplaceTracks | asmr-player/src-tauri/src/scanner.rs:123-128 | replacing a work's tracks leaves the works table and its next id alone |
| ScanModel.LookupByPath | asmr-player/src-tauri/src/scanner.rs:83-92 | an id is found iff a stored work has that `dir_path`, and it is that work's id |
| ScanModel.VisitWork | asmr-player/src-tauri/src/scanner.rs:71-131 | a failed INSERT leaves the database, the count and the events as they were; otherwise the count grows by one and exactly that count is emitted |
| ScanModel.Step | asmr-player/src-tauri/src/scanner.rs:51-133 | after a failure an iteration changes nothing; every iteration emits exactly as many events as it adds to the count |
| ScanModel.Run | asmr-player/src-tauri/src/scanner.rs:51-133 | the walk emits exactly as many events as it adds to the count |
| ScanModel.Scan | asmr-player/src-tauri/src/scanner.rs:9-136 | a missing root is the directory-missing error with no event and no change; a successful scan returns the number of events emitted |
| ScanProperties.RunAfterFailure | asmr-player/src-tauri/src/scanner.rs:110 | once an INSERT of a work fails, the rest of the walk changes nothing |
| ScanProperties.FailureSticks | asmr-player/src-tauri/src/scanner.rs:110 | a failed scan stays failed |
| ScanProperties.ReplaceTracksKeepsConsistent | asmr-player/src-tauri/src/scanner.rs:123-128 | replacing a stored work's tracks keeps the database invariant |
| ScanProperties.InsertKeepsConsistent | asmr-player/src-tauri/src/scanner.rs:97-115 | inserting a work for a new directory whose INSERT succeeds keeps the invariant (unique paths and codes, ascending ids) |
| ScanProperties.StepKeepsConsistent | asmr-player/src-tauri/src/scanner.rs:51-133 | one iteration of the walk loop keeps the database invariant |
| ScanProperties.VisitWorkKeepsConsistent | asmr-player/src-tauri/src/scanner.rs:71-131 | processing a work directory keeps the invariant |
| ScanProperties.RunKeepsConsistent | asmr-player/src-tauri/src/scanner.rs:51-133 | the whole scan keeps the invariant: ids ascending and below the next id, one work per path and per code, every track owned by a stored work |
| ScanProperties.RunCounts | asmr-player/src-tauri/src/scanner.rs:117-129 | the k-th `scan-progress` event carries k and there are `count` of them; with no failed INSERT the count is the number of work directories in the walk |
| ScanProperties.ScanReports | asmr-player/src-tauri/src/scanner.rs:9-136 | a missing root gives the directory-missing error, no event and no change; a successful scan returns the number of work directories, which is the number of events; any other error is a failed INSERT |
| ScanProperties.RunKeepsWorkRows | asmr-player/src-tauri/src/scanner.rs:83-95 | a scan never changes or removes a stored work row; it only appends |
| ScanProperties.VisitWorkShape | asmr-player/src-tauri/src/scanner.rs:83-118 | a visit fails iff the path is new and its INSERT fails, and then changes nothing; otherwise the count grows by one and the path is stored; a stored path leaves the works table unchanged |
| ScanProperties.NewWorkRow | asmr-player/src-tauri/src/scanner.rs:94-115 | a new directory gets the next id, the code matched in its name (none when found by its audio files only), its name as title, its path and its cover |
| ScanProperties.RescanStep | asmr-player/src-tauri/src/scanner.rs:83-95 | one step of a rescan over the first scan's table inserts nothing and counts and fails like the first |
| ScanProperties.RescanPrefix | asmr-player/src-tauri/src/scanner.rs:51-133 | over every prefix of the walk the rescan keeps the first scan's final works table, count and failure |
| ScanProperties.RescanAddsNoWork | asmr-player/src-tauri/src/scanner.rs:83-95 | scanning the same tree again under the same INSERT faults adds no work, reports the same count and fails iff the first scan failed |
| ScanProperties.RescanAfterSuccess | asmr-player/src-tauri/src/scanner.rs:83-95 | after a scan without error, a rescan under any INSERT faults adds no work, reports the same count and does not fail |
| ScanProperties.FailingItem | asmr-player/src-tauri/src/scanner.rs:110 | a failed scan failed at one walk item: the walk before it runs without error and leaves the same database |
| ScanProperties.RescanFailsAtSameItem | asmr-player/src-tauri/src/scanner.rs:83-110 | when the first scan fails, a rescan under the same faults fails at the same item, both leaving what the walk before it leaves |
| ScanProperties.RescanWorkTrackCount | asmr-player/src-tauri/src/scanner.rs:117-128 | after a scan without error, a rescan under the same faults leaves the work stored at a path as many tracks as before |
| ScanProperties.RescanKeepsTrackCounts | asmr-player/src-tauri/src/scanner.rs:51-133 | a rescan under the same faults leaves every work as many tracks as the first scan did, and the tracks table as long |
| ScanProperties.SameWorkCountsSameSize | asmr-player/src-tauri/src/scanner.rs:123-128 | two track tables in which each work owns as many rows have as many rows |
| ScanProperties.NoWorkNoTracks | asmr-player/src-tauri/src/scanner.rs:123-128 | a consistent catalogue holds no track of a work it does not store |
| ScanProperties.TracksOfWithout | asmr-player/src-tauri/src/scanner.rs:123-126 | after the DELETE a work has no rows; other works keep theirs |
| ScanProperties.TracksOfNew | asmr-player/src-tauri/src/scanner.rs:209-216 | the rows inserted for a work are, in order, exactly that work's rows among them; no other work owns any of them |
| ScanProperties.ProcessedTracks | asmr-player/src-tauri/src/scanner.rs:117-128 | processing a work gives it exactly the rows for its inserted audio files; other works keep theirs |
| ScanProperties.VisitedWorkTracks | asmr-player/src-tauri/src/scanner.rs:94-128 | after a successful visit, the stored work of that path has exactly the rows for its inserted audio files |
| ScanProperties.OtherStepsKeepTracks | asmr-player/src-tauri/src/scanner.rs:51-133 | later items with other paths leave a work's id and rows alone |
| ScanProperties.WorkTracksAreItsAudioFiles | asmr-player/src-tauri/src/scanner.rs:117-128 | after a scan without error, a work directory (last visited at item k) is stored and its rows are exactly those for its inserted audio files |
| ScanProperties.WorkTracksWithoutFaults | asmr-player/src-tauri/src/scanner.rs:191-222 | with no failing track INSERT, those rows are one per audio file directly in the directory, in listing order |
| ScanProperties.WorkTracksListed | asmr-player/src-tauri/src/lib.rs:44 | `get_work_tracks` for that work then lists exactly those rows, sorted by title |
| Scanner.ContainsAudioFiles | asmr-player/src-tauri/src/scanner.rs:138-150 | true iff some entry of the listing (file or not) has an audio extension |
| Scanner.FindCoverImage | asmr-player/src-tauri/src/scanner.rs:152-189 | the loop with its early return yields the cover choice |
| Scanner.TrackScanStops | asmr-player/src-tauri/src/scanner.rs:216 | after a failing track INSERT the remaining entries change nothing |
| Scanner.Library.InsertWork | asmr-player/src-tauri/src/scanner.rs:97-115 | `INSERT ... RETURNING id`: fails on a taken code or an outside fault and changes nothing; otherwise appends the row with the next id and returns it |
| Scanner.Library.DeleteTracks | asmr-player/src-tauri/src/scanner.rs:123-126 | the tracks table loses exactly the work's rows; nothing else changes |
| Scanner.Library.ScanTracks | asmr-player/src-tauri/src/scanner.rs:191-222 | appends the rows for the audio files up to the first failing INSERT and reports whether all succeeded |
| Scanner.Library.ReplaceWorkTracks | asmr-player/src-tauri/src/scanner.rs:123-128 | the new database is the track replacement of the old, and the invariant is kept for a stored work |
| Scanner.Library.VisitWorkDir | asmr-player/src-tauri/src/scanner.rs:71-131 | the count, events, failure and database after processing one work directory are those of the loop step, and the invariant is kept |
| Scanner.Library.ScanLibrary | asmr-player/src-tauri/src/scanner.rs:9-136 | result, events and final database are those of the scan over the walk, and the database invariant is kept |
| Audio.Chunk | asmr-player/src-tauri/src/audio.rs:84-94 | the buffer holds fewer than 1024 samples, every chunk sent holds 1024, and the chunks then the buffer spell the samples pulled |
| Audio.ChunkCounts | asmr-player/src-tauri/src/audio.rs:88-90 | after n samples, n div 1024 chunks are sent and n mod 1024 samples wait |
| Audio.ChunkSentGrows | asmr-player/src-tauri/src/audio.rs:89 | chunks once sent stay sent as more samples pass |
| Audio.VisualizerSource.constructor | asmr-player/src-tauri/src/audio.rs:68-75 | an empty buffer of capacity 1024 over the given source |
| Audio.VisualizerSource.Next | asmr-player/src-tauri/src/audio.rs:84-94 | returns the next input sample unchanged and keeps the chunk invariant; an exhausted input returns nothing and leaves buffer and chunks alone |
| Audio.TruncateSpectrum | asmr-player/src-tauri/src/audio.rs:173-176 | at most 100 bins, a prefix of the analysis, all of it when it has 100 or fewer |
| Audio.Marked | asmr-player/src-tauri/src/audio.rs:160-190 | the chunks the receiving loop emits for, by position: each listed position is a qualifying chunk, in strictly increasing order |
| Audio.MarkedAll | asmr-player/src-tauri/src/audio.rs:160-190 | every qualifying chunk's position is listed |
| Audio.Spectra | asmr-player/src-tauri/src/audio.rs:160-178 | at most one `spectrum-update` per chunk, each of at most 100 bins |
| Audio.SpectraFromChunks | asmr-player/src-tauri/src/audio.rs:160-178 | as many `spectrum-update` payloads as chunks whose analysis succeeds, each the first 100 bins of some such analysis (all of it when shorter) |
| Audio.SpectraInOrder | asmr-player/src-tauri/src/audio.rs:160-178 | the k-th `spectrum-update` payload is the truncated analysis of the k-th chunk whose analysis succeeds, so none is dropped, repeated or reordered |
| Audio.ProgressPoints | asmr-player/src-tauri/src/audio.rs:182-188 | no progress events when the rate is unknown; at most one per chunk |
| Audio.Progress | asmr-player/src-tauri/src/audio.rs:180-190 | no `playback-progress` event when the rate is unknown; at most one per chunk decoded |
| Audio.ProgressPointsAre | asmr-player/src-tauri/src/audio.rs:160-191 | with a known rate, as many points as chunks whose clock check passed, each the number of samples received up to and including some such chunk |
| Audio.ReceivedFlattens | asmr-player/src-tauri/src/audio.rs:160-162 | the running sample count after j chunks is the length of those chunks put together |
| Audio.ProgressPointsInOrder | asmr-player/src-tauri/src/audio.rs:160-191 | with a known rate, the k-th point is the number of samples received up to and including the k-th chunk whose clock check passed |
| Audio.ProgressPayloads | asmr-player/src-tauri/src/audio.rs:180-190 | the `playback-progress` payloads: none when the rate is unknown; otherwise the k-th is the skip offset plus, over the rate, the samples received up to and including the k-th chunk whose clock check passed |
| Audio.ProgressPointsGrow | asmr-player/src-tauri/src/audio.rs:160-191 | progress is reported at sample counts that never go backwards and never pass the samples received |
| Audio.ProgressMonotone | asmr-player/src-tauri/src/audio.rs:180-190 | progress positions start at the skip offset, never go backwards and never pass the position of the samples received |
| Audio.ReceiveChunks | asmr-player/src-tauri/src/audio.rs:153-192 | the event task emits exactly the spectra and progress positions above |
| Audio.NewPlayer | asmr-player/src-tauri/src/audio.rs:24-50 | a sink exists iff the output stream and the sink both opened; no current path, nothing emitted |
| Audio.Setup | asmr-player/src-tauri/src/audio.rs:118-151 | succeeds iff the file decodes; then the stream is appended with its skip and the sink plays, and a known duration is emitted; a failure changes nothing |
| Audio.Play | asmr-player/src-tauri/src/audio.rs:198-219 | `play_track` always records the path and the application handle |
| Audio.Seek | asmr-player/src-tauri/src/audio.rs:239-260 | with no current path nothing changes; the current path is never changed |
| Audio.Pause | asmr-player/src-tauri/src/audio.rs:221-228 | with no sink nothing changes; otherwise only the sink's paused flag is set |
| Audio.Resume | asmr-player/src-tauri/src/audio.rs:230-237 | with no sink nothing changes; otherwise only the paused flag is cleared |
| Audio.SetVolume | asmr-player/src-tauri/src/audio.rs:262-269 | with no sink nothing changes; otherwise only the volume is set, as given |
| Audio.CommandsKeepCoherent | asmr-player/src-tauri/src/audio.rs:38-42 | no command creates a sink without an output stream |
| Audio.Restart | asmr-player/src-tauri/src/audio.rs:208-216 | the sink reset shared by play and seek: a failing sink creation is returned and changes nothing; with a stream the sink is replaced by a fresh one holding only this file when it decodes; with neither stream nor sink nothing happens; it fails iff the sink creation fails or a sink exists and the file does not decode |
| Audio.PlayStartsAfresh | asmr-player/src-tauri/src/audio.rs:208-215 | a successful play leaves only the new file queued, from its start, playing at volume 1.0 |
| Audio.SeekRestartsCurrent | asmr-player/src-tauri/src/audio.rs:249-256 | a successful seek queues only the current file, skipping the given seconds, playing at volume 1.0 |
| Audio.SeekWithoutPlayback | asmr-player/src-tauri/src/audio.rs:239-257 | with a track current, a seek whose sink creation fails returns that error, and one with neither stream nor sink succeeds, both unchanged and for any number of seconds |
| Audio.PlaySinkFailure | asmr-player/src-tauri/src/audio.rs:205-211 | a failing sink creation returns its error with the path already switched and the old sink untouched |
| Audio.PlayBadFile | asmr-player/src-tauri/src/audio.rs:208-215 | a file that cannot be opened or decoded fails and leaves an empty fresh sink |
| Audio.PauseResume | asmr-player/src-tauri/src/audio.rs:221-237 | pause and resume only toggle the flag: each is idempotent and the later one wins |
| Audio.AudioState.constructor | asmr-player/src-tauri/src/audio.rs:24-50 | the state is the new player |
| Audio.AudioState.SetupSinkAndPlay | asmr-player/src-tauri/src/audio.rs:118-151 | the state and outcome are those of the setup |
| Audio.AudioState.PlayTrack | asmr-player/src-tauri/src/audio.rs:198-219 | the state and outcome are those of `play_track`, keeping the sink/stream invariant |
| Audio.AudioState.SeekTrack | asmr-player/src-tauri/src/audio.rs:239-260 | the state and outcome are those of `seek_track`, keeping the invariant |
| Audio.AudioState.PauseTrack | asmr-player/src-tauri/src/audio.rs:221-228 | the state is that of `pause_track` |
| Audio.AudioState.ResumeTrack | asmr-player/src-tauri/src/audio.rs:230-237 | the state is that of `resume_track` |
| Audio.AudioState.SetVolumeTo | asmr-player/src-tauri/src/audio.rs:262-269 | the state is that of `set_volume` |
| Scraper.TrimAll | asmr-player/src-tauri/src/scraper.rs:85-86 | each link text trimmed, in order; every result is already trimmed |
| Scraper.Parse | asmr-player/src-tauri/src/scraper.rs:48-116 | no title element iff the "Could not find title" error; otherwise the first title and maker trimmed, the voice-row links, and the genre-row links or, when there are none, the main-genre links |
| Scraper.GatherMembers | asmr-player/src-tauri/src/scraper.rs:77-97 | a text is gathered iff some row of the kind has it among its first cell's links |
| Scraper.ScrapedFrom | asmr-player/src-tauri/src/scraper.rs:77-97 | a name is a voice actor iff a voice row lists it; with genre rows, a tag iff a genre row lists it; no row counts as both |
| Scraper.HeaderlessRowIgnored | asmr-player/src-tauri/src/scraper.rs:78-80 | a row without a header cell adds to neither list |
| Scraper.BothHeadersMeanVoice | asmr-player/src-tauri/src/scraper.rs:82-90 | a header naming both feeds the voice actors only |
| Scraper.TrimIdempotent | asmr-player/src-tauri/src/scraper.rs:66 | trimming twice is trimming once |
| Scraper.ScrapedTextsTrimmed | asmr-player/src-tauri/src/scraper.rs:64-108 | title, circle, every voice actor and every tag is trimmed |
| Scraper.PushTrimmed | asmr-player/src-tauri/src/scraper.rs:85-87 | the loop appends each link text trimmed, in order |
| Scraper.CollectOutline | asmr-player/src-tauri/src/scraper.rs:77-97 | the row loop yields exactly the voice-row links and the genre-row links |
| Scraper.ParseDlsiteHtml | asmr-player/src-tauri/src/scraper.rs:48-116 | the parse as it runs is the field rules above |
| Scraper.HomeOutcome | asmr-player/src-tauri/src/scraper.rs:30-41 | a transport error, a failing status (not found for the code) or the parsed page |
| Scraper.FetchDlsiteMetadata | asmr-player/src-tauri/src/scraper.rs:12-46 | maniax is tried first; its transport error is final; a success is parsed; the home page is tried iff maniax answered with a failing status |
| Scraper.FetchedFromSuccessfulPage | asmr-player/src-tauri/src/scraper.rs:12-46 | metadata comes only from a requested page that answered with success and parsed |

## Left out

- The filesystem is not modelled as I/O. The walk, listings, `exists`, `is_dir`, `is_file` and file sizes are input data. An unreadable listing is an empty one, as all three listing loops treat it.
- SQLite and sqlx are replaced by two in-memory sequences. Things not modelled:
  - connection failures;
  - a failing `SELECT ... WHERE dir_path` (the code treats it as "not found");
  - a failing `DELETE` (the code ignores it).
- The migrations and `run()` are left out. The `rj_code` UNIQUE constraint is modelled because the scan's error path depends on it.
- `created_at` is one `now` per scan, not a clock reading per row.
- `ScanModel.DefaultDuration`: a track row is inserted without `duration_sec`, so it gets the column default. The schema is not part of this model. The model assumes a default of 0, and `lib.rs:39` reads the column as an `i64`.
- Row ids: `nextWorkId` and `nextTrackId` only grow, so a deleted id is never handed out again. SQLite without AUTOINCREMENT gives max(rowid)+1, so it can reuse the id of a track deleted at `scanner.rs:124` when that track had the largest id.
- `Scanner.Library.ScanLibrary`: the count is unbounded; the `usize` wrap-around cannot occur for real directory counts.
- Tauri event emission is modelled as returned event sequences. `AppHandle` is modelled as a flag. Command registration and plugins are left out.
- The `Mutex` is left out, and so is its lock-failure error.
- The rodio decoder and output are left out. The sink is a record of queued (path, skip) pairs, a paused flag and a volume. The leaked output stream and the `Send` impl are left out.
- Reals stand in for `f32`/`f64` times and volumes. There is no rounding.
- `Audio.Seek`: requires `seconds >= 0` only when a track is current, the file decodes and playback is set up on a sink: the sink creation does not fail when there is a stream, and there is a stream or a sink. `Duration::from_secs_f32` runs only on that path, after a successful decode, and panics on a negative value; a panic is not modelled. `Audio.Restart` requires the same of `skip`, and `Audio.AudioState.SeekTrack` and `Audio.CommandsKeepCoherent` the same as `Audio.Seek`.
- `Audio.Setup`: requires a non-negative skip only when the file decodes, for the same reason (`Audio.AudioState.SetupSinkAndPlay` too).
- The FFT is left out: `samples_fft_to_spectrum` is a function parameter.
- The 250 ms `Instant` throttle is left out: whether it has run out after each chunk is a parameter.
- The broadcast channel and the spawned task are not modelled as concurrency. The spawned task sees the chunks received before the channel ends or lags, given as a sequence.
- `Audio.VisualizerSource.Next`: the send result is ignored as in the code. The source's frame length, channel count, sample rate and duration accessors are left out.
- Regular expressions in general are left out. Only the one pattern is matched by hand. `\d` and `to_lowercase` are ASCII-only here.
- HTTP (reqwest) and HTML parsing are left out. A page is what its selectors pick out. A response is a status and either a document or a body-reading error.
- `Text.Trim` uses the Unicode White_Space list that Rust's `trim` uses. Text is a sequence of characters, not UTF-8 bytes.
