/** Playback: the sample tap that feeds the visualiser, the spawned task that turns
    its chunks into `spectrum-update` and `playback-progress` events, and
    the player state behind the `play_track`, `pause_track`,
    `resume_track`, `seek_track` and `set_volume` commands. Samples are of
    an abstract type; times and volumes are reals. */
module Audio {
  import opened Common

  /** Samples the tap collects before sending them as one chunk. */
  const BufferSize := 1024
  /** Bins kept of each spectrum. */
  const SpectrumBins := 100

  // ---------------------------------------------------------------------
  // VisualizerSource: chunking the samples that pass through

  function Flatten<S>(chunks: seq<seq<S>>): (r: seq<S>) {
    if chunks == [] then []
    else Flatten(chunks[..|chunks| - 1]) + chunks[|chunks| - 1]
  }

  /** The chunks sent so far and the partial buffer, after `pulled` has gone through the tap. */
  datatype Chunked<S> = Chunked(sent: seq<seq<S>>, buffer: seq<S>)

  /** Every sample is pushed to the buffer; a buffer that reaches
      `BufferSize` is sent and cleared. Nothing is lost or reordered: the
      chunks, then the buffer, spell the samples. */
  function Chunk<S>(pulled: seq<S>): (r: Chunked<S>)
    ensures |r.buffer| < BufferSize
    ensures forall k :: 0 <= k < |r.sent| ==> |r.sent[k]| == BufferSize
    ensures Flatten(r.sent) + r.buffer == pulled
    ensures |r.sent| * BufferSize + |r.buffer| == |pulled|
  {
    if pulled == [] then Chunked([], [])
    else
      var before := Chunk(pulled[..|pulled| - 1]);
      var sample := pulled[|pulled| - 1];
      assert pulled == pulled[..|pulled| - 1] + [sample];
      var buffer := before.buffer + [sample];
      if |buffer| >= BufferSize then
        var sent := before.sent + [buffer];
        assert sent[..|sent| - 1] == before.sent;
        Chunked(sent, [])
      else Chunked(before.sent, buffer)
  }

  /** After `n` samples, `n / 1024` chunks have been sent and `n % 1024` samples wait in the buffer. */
  lemma ChunkCounts<S>(pulled: seq<S>)
    ensures |Chunk(pulled).sent| == |pulled| / BufferSize
    ensures |Chunk(pulled).buffer| == |pulled| % BufferSize
  {
    var r := Chunk(pulled);
    DivModUnique(|pulled|, |r.sent|, |r.buffer|);
  }

  lemma DivModUnique(n: nat, q: nat, m: nat)
    requires q * BufferSize + m == n && m < BufferSize
    ensures n / BufferSize == q && n % BufferSize == m
  {
  }

  /** Chunks already sent stay as they were when more samples pass. */
  lemma {:induction false} ChunkSentGrows<S>(pulled: seq<S>, more: seq<S>)
    ensures Chunk(pulled).sent <= Chunk(pulled + more).sent
    decreases |more|
  {
    if more == [] {
      assert pulled + more == pulled;
    } else {
      var m0 := more[..|more| - 1];
      assert (pulled + more)[..|pulled + more| - 1] == pulled + m0;
      ChunkSentGrows(pulled, m0);
    }
  }

  /** The tap of `setup_sink_and_play`: an iterator over the decoded source
      that hands each sample on and copies it into its buffer. */
  class VisualizerSource<S> {
    /** Samples of the wrapped source not yet pulled. */
    var input: seq<S>
    var buffer: seq<S>
    /** The chunks handed to the broadcast channel, oldest first. */
    var sent: seq<seq<S>>
    const bufferSize: nat
    /** The samples pulled so far. */
    ghost var pulled: seq<S>

    ghost predicate Valid()
      reads this
    {
      bufferSize == BufferSize && Chunk(pulled) == Chunked(sent, buffer)
    }

    constructor (source: seq<S>)
      ensures Valid() && input == source && pulled == [] && sent == [] && buffer == []
    {
      input := source;
      buffer := [];
      sent := [];
      bufferSize := BufferSize;
      pulled := [];
    }

    /** `next`: the next sample of the wrapped source, or nothing once it is exhausted. */
    method Next() returns (sample: Option<S>)
      requires Valid()
      modifies this
      ensures Valid()
      ensures old(input) == [] ==> sample == None && input == [] && pulled == old(pulled) && buffer == old(buffer) && sent == old(sent)
      ensures old(input) != [] ==>
        sample == Some(old(input)[0]) && input == old(input)[1..] && pulled == old(pulled) + [old(input)[0]]
    {
      if input == [] {
        return None;
      }
      var s := input[0];
      input := input[1..];
      pulled := pulled + [s];
      assert pulled[..|pulled| - 1] == old(pulled);
      buffer := buffer + [s];
      if |buffer| >= bufferSize {
        sent := sent + [buffer];
        buffer := [];
      }
      return Some(s);
    }
  }

  // ---------------------------------------------------------------------
  // The receiving task: spectrum and progress events

  /** `data.truncate(100)`: the first hundred bins, or all when fewer. */
  function TruncateSpectrum(data: seq<real>): (r: seq<real>)
    ensures |r| <= SpectrumBins && r <= data
    ensures |data| <= SpectrumBins ==> r == data
    ensures |data| > SpectrumBins ==> |r| == SpectrumBins
  {
    if |data| > SpectrumBins then data[..SpectrumBins] else data
  }

  /** The positions of the set flags, in increasing order. */
  function Marked(flags: seq<bool>): (idx: seq<nat>)
    ensures forall k :: 0 <= k < |idx| ==> idx[k] < |flags| && flags[idx[k]]
    ensures forall a, b :: 0 <= a < b < |idx| ==> idx[a] < idx[b]
    decreases |flags|
  {
    if flags == [] then []
    else
      var n := |flags| - 1;
      assert forall j :: 0 <= j < n ==> flags[..n][j] == flags[j];
      Marked(flags[..n]) + (if flags[n] then [n] else [])
  }

  /** No set flag is missed. */
  lemma {:induction false} MarkedAll(flags: seq<bool>)
    ensures forall j :: 0 <= j < |flags| && flags[j] ==> j in Marked(flags)
    decreases |flags|
  {
    if flags != [] {
      var n := |flags| - 1;
      MarkedAll(flags[..n]);
      assert forall j :: 0 <= j < n ==> flags[..n][j] == flags[j];
      assert Marked(flags) == Marked(flags[..n]) + (if flags[n] then [n] else []);
    }
  }

  /** Which chunks the analyser gives a spectrum for. */
  function Analysed<S>(chunks: seq<seq<S>>, analyse: seq<S> -> Option<seq<real>>): (flags: seq<bool>)
    ensures |flags| == |chunks| && forall j :: 0 <= j < |chunks| ==> (flags[j] <==> analyse(chunks[j]).Some?)
  {
    seq(|chunks|, j requires 0 <= j < |chunks| => analyse(chunks[j]).Some?)
  }

  /** The `spectrum-update` payloads for the chunks received: one per
      chunk whose analysis succeeds, truncated. */
  function Spectra<S>(chunks: seq<seq<S>>, analyse: seq<S> -> Option<seq<real>>): (r: seq<seq<real>>)
    ensures |r| <= |chunks|
    ensures forall k :: 0 <= k < |r| ==> |r[k]| <= SpectrumBins
  {
    if chunks == [] then []
    else
      var before := Spectra(chunks[..|chunks| - 1], analyse);
      match analyse(chunks[|chunks| - 1])
      case Some(data) => before + [TruncateSpectrum(data)]
      case None => before
  }

  /** There is one payload per chunk whose analysis succeeds, and each is
      the first hundred bins of some such chunk's analysis. */
  lemma {:induction false} SpectraFromChunks<S>(chunks: seq<seq<S>>, analyse: seq<S> -> Option<seq<real>>)
    ensures |Spectra(chunks, analyse)| == |set j | 0 <= j < |chunks| && analyse(chunks[j]).Some?|
    ensures forall k :: 0 <= k < |Spectra(chunks, analyse)| ==>
      (exists j :: 0 <= j < |chunks| && analyse(chunks[j]).Some? &&
        Spectra(chunks, analyse)[k] <= analyse(chunks[j]).value &&
        (Spectra(chunks, analyse)[k] == analyse(chunks[j]).value || |Spectra(chunks, analyse)[k]| == SpectrumBins))
    decreases |chunks|
  {
    if chunks != [] {
      var n := |chunks| - 1;
      var init := chunks[..n];
      SpectraFromChunks(init, analyse);
      assert forall j :: 0 <= j < n ==> init[j] == chunks[j];
      assert (set j | 0 <= j < |chunks| && analyse(chunks[j]).Some?) ==
        (set j | 0 <= j < n && analyse(init[j]).Some?) + (if analyse(chunks[n]).Some? then {n} else {});
    }
  }

  /** The k-th payload is the truncated analysis of the k-th chunk whose
      analysis succeeds: none is dropped, repeated or reordered. */
  lemma {:induction false} SpectraInOrder<S>(chunks: seq<seq<S>>, analyse: seq<S> -> Option<seq<real>>)
    ensures var idx := Marked(Analysed(chunks, analyse));
      |Spectra(chunks, analyse)| == |idx| &&
      forall k :: 0 <= k < |idx| ==> Spectra(chunks, analyse)[k] == TruncateSpectrum(analyse(chunks[idx[k]]).value)
    decreases |chunks|
  {
    if chunks != [] {
      var n := |chunks| - 1;
      var init := chunks[..n];
      SpectraInOrder(init, analyse);
      var flags := Analysed(chunks, analyse);
      assert flags[..n] == Analysed(init, analyse);
      var before := Marked(flags[..n]);
      var idx := Marked(flags);
      assert idx == before + (if flags[n] then [n] else []);
      var r := Spectra(chunks, analyse);
      var rest := Spectra(init, analyse);
      assert r == if analyse(chunks[n]).Some? then rest + [TruncateSpectrum(analyse(chunks[n]).value)] else rest;
      forall k | 0 <= k < |idx|
        ensures r[k] == TruncateSpectrum(analyse(chunks[idx[k]]).value)
      {
        if k < |before| {
          assert idx[k] == before[k] && init[before[k]] == chunks[idx[k]];
        }
      }
    }
  }

  /** The playback position after `processed` samples of a stream started at `skip` seconds. */
  function Position(skip: real, processed: nat, samplesPerSec: nat): real
    requires samplesPerSec > 0
  {
    skip + processed as real / samplesPerSec as real
  }

  /** The sample counts at which a `playback-progress` event is emitted:
      after each chunk whose clock check (`due`) has passed, when the rate
      is known. */
  function ProgressPoints<S>(chunks: seq<seq<S>>, due: seq<bool>, samplesPerSec: nat): (r: seq<nat>)
    requires |due| == |chunks|
    ensures samplesPerSec == 0 ==> r == []
    ensures |r| <= |chunks|
  {
    if chunks == [] then []
    else
      var n := |chunks| - 1;
      var before := ProgressPoints(chunks[..n], due[..n], samplesPerSec);
      if due[n] && samplesPerSec > 0 then before + [|Flatten(chunks)|] else before
  }

  /** When the rate is known there is one point per chunk whose clock
      check has passed, and each point is the number of samples received
      up to and including such a chunk. */
  lemma {:induction false} ProgressPointsAre<S>(chunks: seq<seq<S>>, due: seq<bool>, samplesPerSec: nat)
    requires |due| == |chunks|
    ensures samplesPerSec > 0 ==> |ProgressPoints(chunks, due, samplesPerSec)| == |set j | 0 <= j < |due| && due[j]|
    ensures forall k :: 0 <= k < |ProgressPoints(chunks, due, samplesPerSec)| ==>
      (exists j :: 0 <= j < |chunks| && due[j] && ProgressPoints(chunks, due, samplesPerSec)[k] == |Flatten(chunks[..j + 1])|)
    decreases |chunks|
  {
    if chunks != [] {
      var n := |chunks| - 1;
      ProgressPointsAre(chunks[..n], due[..n], samplesPerSec);
      var before := ProgressPoints(chunks[..n], due[..n], samplesPerSec);
      var r := ProgressPoints(chunks, due, samplesPerSec);
      assert forall j :: 0 <= j < n ==> due[..n][j] == due[j];
      assert (set j | 0 <= j < |due| && due[j]) == (set j | 0 <= j < n && due[..n][j]) + (if due[n] then {n} else {});
      forall k | 0 <= k < |r| ensures exists j :: 0 <= j < |chunks| && due[j] && r[k] == |Flatten(chunks[..j + 1])| {
        if k < |before| {
          var j :| 0 <= j < n && due[..n][j] && before[k] == |Flatten(chunks[..n][..j + 1])|;
          assert chunks[..n][..j + 1] == chunks[..j + 1];
          assert r[k] == before[k];
        } else {
          assert chunks[..n + 1] == chunks;
          assert due[n] && r[k] == |Flatten(chunks[..n + 1])|;
        }
      }
    } else {
      assert ProgressPoints(chunks, due, samplesPerSec) == [];
    }
  }

  /** The number of samples in the first `j` chunks. */
  function Received<S>(chunks: seq<seq<S>>, j: nat): nat
    requires j <= |chunks|
  {
    if j == 0 then 0 else Received(chunks, j - 1) + |chunks[j - 1]|
  }

  /** The count is the length of those chunks put together. */
  lemma {:induction false} ReceivedFlattens<S>(chunks: seq<seq<S>>, j: nat)
    requires j <= |chunks|
    ensures Received(chunks, j) == |Flatten(chunks[..j])|
    decreases j
  {
    if j > 0 {
      ReceivedFlattens(chunks, j - 1);
      PrefixOfPrefix(chunks, j, j - 1);
    }
  }

  /** Counting within a prefix of the chunks is counting within the chunks. */
  lemma {:induction false} ReceivedPrefix<S>(chunks: seq<seq<S>>, n: nat, j: nat)
    requires j <= n <= |chunks|
    ensures Received(chunks[..n], j) == Received(chunks, j)
    decreases j
  {
    if j > 0 {
      ReceivedPrefix(chunks, n, j - 1);
    }
  }

  /** With a known rate, the k-th point is the number of samples received
      up to and including the k-th chunk whose clock check has passed. */
  lemma {:induction false} ProgressPointsInOrder<S>(chunks: seq<seq<S>>, due: seq<bool>, samplesPerSec: nat)
    requires |due| == |chunks|
    ensures samplesPerSec > 0 ==>
      var idx := Marked(due);
      |ProgressPoints(chunks, due, samplesPerSec)| == |idx| &&
      forall k :: 0 <= k < |idx| ==> ProgressPoints(chunks, due, samplesPerSec)[k] == Received(chunks, idx[k] + 1)
    decreases |chunks|
  {
    if chunks != [] && samplesPerSec > 0 {
      var n := |chunks| - 1;
      ProgressPointsInOrder(chunks[..n], due[..n], samplesPerSec);
      var before := Marked(due[..n]);
      var idx := Marked(due);
      assert idx == before + (if due[n] then [n] else []);
      var r := ProgressPoints(chunks, due, samplesPerSec);
      var rest := ProgressPoints(chunks[..n], due[..n], samplesPerSec);
      assert r == if due[n] then rest + [|Flatten(chunks)|] else rest;
      forall k | 0 <= k < |idx|
        ensures r[k] == Received(chunks, idx[k] + 1)
      {
        if k < |before| {
          ReceivedPrefix(chunks, n, before[k] + 1);
        } else {
          ReceivedFlattens(chunks, n + 1);
          assert chunks[..n + 1] == chunks;
        }
      }
    }
  }

  lemma PrefixOfPrefix<T>(s: seq<T>, n: nat, m: nat)
    requires m <= n <= |s|
    ensures s[..n][..m] == s[..m]
  {
  }

  /** The payloads of those events: the positions reached. */
  function Positions(points: seq<nat>, skip: real, samplesPerSec: nat): (r: seq<real>)
    requires samplesPerSec > 0
    ensures |r| == |points| && forall k :: 0 <= k < |r| ==> r[k] == Position(skip, points[k], samplesPerSec)
  {
    seq(|points|, k requires 0 <= k < |points| => Position(skip, points[k], samplesPerSec))
  }

  /** The `playback-progress` payloads. */
  function Progress<S>(chunks: seq<seq<S>>, due: seq<bool>, skip: real, samplesPerSec: nat): (r: seq<real>)
    requires |due| == |chunks|
    ensures samplesPerSec == 0 ==> r == []
    ensures |r| <= |chunks|
  {
    if samplesPerSec == 0 then [] else Positions(ProgressPoints(chunks, due, samplesPerSec), skip, samplesPerSec)
  }

  /** No payload when the rate is unknown; otherwise one per chunk whose
      clock check has passed, each the skip offset plus the samples
      received up to such a chunk over the rate. */
  lemma ProgressPayloads<S>(chunks: seq<seq<S>>, due: seq<bool>, skip: real, samplesPerSec: nat)
    requires |due| == |chunks|
    ensures samplesPerSec == 0 ==> Progress(chunks, due, skip, samplesPerSec) == []
    ensures samplesPerSec > 0 ==> |Progress(chunks, due, skip, samplesPerSec)| == |set j | 0 <= j < |due| && due[j]|
    ensures forall k :: 0 <= k < |Progress(chunks, due, skip, samplesPerSec)| ==>
      samplesPerSec > 0 &&
      (exists j :: 0 <= j < |chunks| && due[j] &&
        Progress(chunks, due, skip, samplesPerSec)[k] == Position(skip, |Flatten(chunks[..j + 1])|, samplesPerSec))
    ensures samplesPerSec > 0 ==>
      var idx := Marked(due);
      |Progress(chunks, due, skip, samplesPerSec)| == |idx| &&
      forall k :: 0 <= k < |idx| ==>
        Progress(chunks, due, skip, samplesPerSec)[k] == Position(skip, Received(chunks, idx[k] + 1), samplesPerSec)
  {
    ProgressPointsAre(chunks, due, samplesPerSec);
    ProgressPointsInOrder(chunks, due, samplesPerSec);
  }

  /** Progress is reported at chunk boundaries that never go backwards
      and never pass the samples received. */
  lemma {:induction false} ProgressPointsGrow<S>(chunks: seq<seq<S>>, due: seq<bool>, samplesPerSec: nat)
    requires |due| == |chunks|
    ensures forall i, j :: 0 <= i < j < |ProgressPoints(chunks, due, samplesPerSec)| ==>
      ProgressPoints(chunks, due, samplesPerSec)[i] <= ProgressPoints(chunks, due, samplesPerSec)[j]
    ensures forall k :: 0 <= k < |ProgressPoints(chunks, due, samplesPerSec)| ==>
      ProgressPoints(chunks, due, samplesPerSec)[k] <= |Flatten(chunks)|
    decreases |chunks|
  {
    if chunks != [] {
      var n := |chunks| - 1;
      ProgressPointsGrow(chunks[..n], due[..n], samplesPerSec);
      var before := ProgressPoints(chunks[..n], due[..n], samplesPerSec);
      var total := |Flatten(chunks)|;
      assert total == |Flatten(chunks[..n])| + |chunks[n]|;
      var r := ProgressPoints(chunks, due, samplesPerSec);
      assert r == if due[n] && samplesPerSec > 0 then before + [total] else before;
      forall i, j | 0 <= i < j < |r| ensures r[i] <= r[j] {
        assert r[i] == before[i];
        if j < |before| {
          assert r[j] == before[j];
        }
      }
    }
  }

  /** Every progress payload is a position from the skip offset onwards,
      the positions never go backwards, and none is past the samples received. */
  lemma ProgressMonotone<S>(chunks: seq<seq<S>>, due: seq<bool>, skip: real, samplesPerSec: nat)
    requires |due| == |chunks|
    ensures forall k :: 0 <= k < |Progress(chunks, due, skip, samplesPerSec)| ==>
      samplesPerSec > 0 && skip <= Progress(chunks, due, skip, samplesPerSec)[k] <= Position(skip, |Flatten(chunks)|, samplesPerSec)
    ensures forall i, j :: 0 <= i < j < |Progress(chunks, due, skip, samplesPerSec)| ==>
      Progress(chunks, due, skip, samplesPerSec)[i] <= Progress(chunks, due, skip, samplesPerSec)[j]
  {
    if samplesPerSec > 0 {
      var points := ProgressPoints(chunks, due, samplesPerSec);
      var r := Progress(chunks, due, skip, samplesPerSec);
      ProgressPointsGrow(chunks, due, samplesPerSec);
      forall i, j | 0 <= i < j < |r| ensures r[i] <= r[j] {
        PositionGrows(skip, points[i], points[j], samplesPerSec);
      }
      forall k | 0 <= k < |r| ensures skip <= r[k] <= Position(skip, |Flatten(chunks)|, samplesPerSec) {
        PositionGrows(skip, points[k], |Flatten(chunks)|, samplesPerSec);
      }
    } else {
      assert Progress(chunks, due, skip, samplesPerSec) == [];
    }
  }

  lemma PositionGrows(skip: real, a: nat, b: nat, samplesPerSec: nat)
    requires a <= b && samplesPerSec > 0
    ensures skip <= Position(skip, a, samplesPerSec) <= Position(skip, b, samplesPerSec)
  {
    var d := samplesPerSec as real;
    assert a as real / d <= b as real / d;
  }

  /** The receiving loop spawned by `setup_sink_and_play`: for each chunk received
      until the channel reports an error, count its samples, emit its
      spectrum when the analysis succeeds, and emit the position when the
      clock says a quarter second has passed and the rate is known. */
  method ReceiveChunks<S>(chunks: seq<seq<S>>, analyse: seq<S> -> Option<seq<real>>, due: seq<bool>,
                          sampleRate: nat, channels: nat, skip: real)
    returns (spectra: seq<seq<real>>, progress: seq<real>)
    requires |due| == |chunks|
    ensures spectra == Spectra(chunks, analyse)
    ensures progress == Progress(chunks, due, skip, sampleRate * channels)
  {
    var processed: nat := 0;
    spectra, progress := [], [];
    var samplesPerSec := sampleRate * channels;
    var i := 0;
    while i < |chunks|
      invariant 0 <= i <= |chunks|
      invariant processed == |Flatten(chunks[..i])|
      invariant spectra == Spectra(chunks[..i], analyse)
      invariant progress == Progress(chunks[..i], due[..i], skip, samplesPerSec)
    {
      ghost var points := ProgressPoints(chunks[..i], due[..i], samplesPerSec);
      var samples := chunks[i];
      assert chunks[..i + 1][..i] == chunks[..i] && due[..i + 1][..i] == due[..i];
      processed := processed + |samples|;
      var spectrum := analyse(samples);
      if spectrum.Some? {
        var data := spectrum.value;
        if |data| > SpectrumBins {
          data := data[..SpectrumBins];
        }
        spectra := spectra + [data];
      }
      if due[i] {
        if samplesPerSec > 0 {
          assert Positions(points + [processed], skip, samplesPerSec) == progress + [Position(skip, processed, samplesPerSec)];
          progress := progress + [Position(skip, processed, samplesPerSec)];
        }
      }
      i := i + 1;
    }
    assert chunks[..i] == chunks && due[..i] == due;
  }

  // ---------------------------------------------------------------------
  // The player state and its commands

  /** A stream appended to a sink: the file and the seconds skipped at its start. */
  datatype Queued = Queued(path: string, skip: real)

  /** A `rodio::Sink`: the sources appended to it, whether it is paused, its volume. */
  datatype Sink = Sink(queue: seq<Queued>, paused: bool, volume: real)

  /** A sink just created: empty, playing, at full volume. */
  const FreshSink := Sink([], false, 1.0)

  /** What opening and decoding the file at a path gives: an error text,
      or a stream whose total duration may be known. */
  datatype Media = OpenFailed(reason: string) | DecodeFailed(reason: string) | Decoded(duration: Option<real>)

  /** The fields of `AudioState` that commands change, and the
      `track-duration` payloads emitted so far. */
  datatype Player = Player(sink: Option<Sink>, appAttached: bool, currentPath: Option<string>, durations: seq<real>)

  datatype Reply = Reply(player: Player, outcome: Outcome)

  /** A sink exists only on an output stream. */
  predicate Coherent(p: Player, hasStream: bool) {
    p.sink.Some? ==> hasStream
  }

  /** `AudioState::new`: a sink exists when the default output stream
      opened and a sink could be created on it. */
  function NewPlayer(device: Outcome, sinkCreation: Outcome): (p: Player)
    ensures Coherent(p, device.Pass?)
    ensures p.sink.Some? <==> device.Pass? && sinkCreation.Pass?
    ensures p.sink.Some? ==> p.sink.value == FreshSink
    ensures !p.appAttached && p.currentPath == None && p.durations == []
  {
    Player(if device.Pass? && sinkCreation.Pass? then Some(FreshSink) else None, false, None, [])
  }

  /** `setup_sink_and_play` on the current sink: the file's stream,
      skipping `skip` seconds, is appended and the sink plays; an error
      opening or decoding the file is returned and nothing changes. */
  function Setup(p: Player, path: string, skip: real, media: Media): (r: Reply)
    requires p.sink.Some? && (media.Decoded? ==> skip >= 0.0)
    ensures r.outcome.Pass? <==> media.Decoded?
    ensures media.OpenFailed? ==> r == Reply(p, Fail(media.reason))
    ensures media.DecodeFailed? ==> r == Reply(p, Fail(media.reason))
    ensures media.Decoded? ==>
      r.player.sink == Some(p.sink.value.(queue := p.sink.value.queue + [Queued(path, skip)], paused := false)) &&
      r.player.durations == p.durations + (if media.duration.Some? then [media.duration.value] else []) &&
      r.player.currentPath == p.currentPath && r.player.appAttached == p.appAttached
  {
    match media
    case OpenFailed(reason) => Reply(p, Fail(reason))
    case DecodeFailed(reason) => Reply(p, Fail(reason))
    case Decoded(duration) =>
      var sink := p.sink.value;
      Reply(p.(sink := Some(sink.(queue := sink.queue + [Queued(path, skip)], paused := false)),
               durations := p.durations + (if duration.Some? then [duration.value] else [])), Pass)
  }

  /** Replace the sink by a fresh one when there is an output stream, then
      play `path` from `skip` on whatever sink there is. A failing sink
      creation is returned with nothing changed; a file that cannot be
      opened or decoded fails on a sink that is then empty. */
  function Restart(p: Player, hasStream: bool, path: string, skip: real, sinkCreation: Outcome, media: Media): (r: Reply)
    requires media.Decoded? && (hasStream ==> sinkCreation.Pass?) && (hasStream || p.sink.Some?) ==> skip >= 0.0
    ensures r.player.currentPath == p.currentPath && r.player.appAttached == p.appAttached
    ensures hasStream && sinkCreation.Fail? ==> r == Reply(p, sinkCreation)
    ensures r.outcome.Fail? <==> (hasStream && sinkCreation.Fail?) || ((hasStream || p.sink.Some?) && !media.Decoded?)
    ensures hasStream && sinkCreation.Pass? ==>
      r.player.sink == Some(FreshSink.(queue := if media.Decoded? then [Queued(path, skip)] else []))
    ensures !hasStream && p.sink.None? ==> r == Reply(p, Pass)
  {
    if hasStream && sinkCreation.Fail? then Reply(p, sinkCreation)
    else
      var q := if hasStream then p.(sink := Some(FreshSink)) else p;
      assert FreshSink.queue + [Queued(path, skip)] == [Queued(path, skip)];
      if q.sink.Some? then Setup(q, path, skip, media) else Reply(q, Pass)
  }

  /** `play_track`: remembers the application handle and the path first,
      then restarts playback from the beginning of the file. */
  function Play(p: Player, hasStream: bool, path: string, sinkCreation: Outcome, media: Media): (r: Reply)
    ensures r.player.currentPath == Some(path) && r.player.appAttached
  {
    Restart(p.(appAttached := true, currentPath := Some(path)), hasStream, path, 0.0, sinkCreation, media)
  }

  /** `seek_track`: with no current path nothing happens; otherwise the
      current file is restarted `seconds` into it. */
  function Seek(p: Player, hasStream: bool, seconds: real, sinkCreation: Outcome, media: Media): (r: Reply)
    requires p.currentPath.Some? && media.Decoded? && (hasStream ==> sinkCreation.Pass?) && (hasStream || p.sink.Some?) ==>
      seconds >= 0.0
    ensures p.currentPath.None? ==> r == Reply(p, Pass)
    ensures r.player.currentPath == p.currentPath && r.player.appAttached == p.appAttached
  {
    if p.currentPath.None? then Reply(p, Pass)
    else Restart(p, hasStream, p.currentPath.value, seconds, sinkCreation, media)
  }

  function Pause(p: Player): (r: Player)
    ensures r.sink.Some? <==> p.sink.Some?
    ensures r.sink.Some? ==> r.sink.value.paused && r.sink.value.queue == p.sink.value.queue && r.sink.value.volume == p.sink.value.volume
    ensures r.currentPath == p.currentPath && r.appAttached == p.appAttached && r.durations == p.durations
  {
    if p.sink.Some? then p.(sink := Some(p.sink.value.(paused := true))) else p
  }

  function Resume(p: Player): (r: Player)
    ensures r.sink.Some? <==> p.sink.Some?
    ensures r.sink.Some? ==> !r.sink.value.paused && r.sink.value.queue == p.sink.value.queue && r.sink.value.volume == p.sink.value.volume
    ensures r.currentPath == p.currentPath && r.appAttached == p.appAttached && r.durations == p.durations
  {
    if p.sink.Some? then p.(sink := Some(p.sink.value.(paused := false))) else p
  }

  /** `set_volume`: the value is passed to the sink as given, unclamped. */
  function SetVolume(p: Player, volume: real): (r: Player)
    ensures r.sink.Some? <==> p.sink.Some?
    ensures r.sink.Some? ==> r.sink.value.volume == volume && r.sink.value.queue == p.sink.value.queue && r.sink.value.paused == p.sink.value.paused
    ensures r.currentPath == p.currentPath && r.appAttached == p.appAttached && r.durations == p.durations
  {
    if p.sink.Some? then p.(sink := Some(p.sink.value.(volume := volume))) else p
  }

  /** Every command keeps a sink only where there is an output stream. */
  lemma CommandsKeepCoherent(p: Player, hasStream: bool, path: string, seconds: real, volume: real, sinkCreation: Outcome, media: Media)
    requires Coherent(p, hasStream)
    requires p.currentPath.Some? && media.Decoded? && (hasStream ==> sinkCreation.Pass?) && (hasStream || p.sink.Some?) ==>
      seconds >= 0.0
    ensures Coherent(Play(p, hasStream, path, sinkCreation, media).player, hasStream)
    ensures Coherent(Seek(p, hasStream, seconds, sinkCreation, media).player, hasStream)
    ensures Coherent(Pause(p), hasStream) && Coherent(Resume(p), hasStream) && Coherent(SetVolume(p, volume), hasStream)
  {
  }

  /** A successful `play_track` leaves exactly the new file queued, from
      its start, playing at full volume, whatever played before and at
      whatever volume. */
  lemma PlayStartsAfresh(p: Player, path: string, media: Media)
    requires media.Decoded?
    ensures var r := Play(p, true, path, Pass, media);
      r.outcome == Pass && r.player.sink == Some(Sink([Queued(path, 0.0)], false, 1.0))
  {
    assert FreshSink.queue + [Queued(path, 0.0)] == [Queued(path, 0.0)];
  }

  /** A successful `seek_track` restarts the current file `seconds` into
      it, alone in a fresh sink, playing at full volume. */
  lemma SeekRestartsCurrent(p: Player, seconds: real, media: Media)
    requires p.currentPath.Some? && seconds >= 0.0 && media.Decoded?
    ensures var r := Seek(p, true, seconds, Pass, media);
      r.outcome == Pass && r.player.sink == Some(Sink([Queued(p.currentPath.value, seconds)], false, 1.0))
  {
    assert FreshSink.queue + [Queued(p.currentPath.value, seconds)] == [Queued(p.currentPath.value, seconds)];
  }

  /** A seek whose sink creation fails, or that has neither an output
      stream nor a sink, returns before the file is decoded, whatever the
      number of seconds. */
  lemma SeekWithoutPlayback(p: Player, hasStream: bool, seconds: real, sinkCreation: Outcome, media: Media)
    requires p.currentPath.Some?
    requires (hasStream && sinkCreation.Fail?) || (!hasStream && p.sink.None?)
    ensures Seek(p, hasStream, seconds, sinkCreation, media) == Reply(p, if hasStream then sinkCreation else Pass)
  {
  }

  /** When the sink cannot be created, `play_track` fails but has already
      switched the current path, and the old sink plays on untouched. */
  lemma PlaySinkFailure(p: Player, path: string, reason: string, media: Media)
    ensures var r := Play(p, true, path, Fail(reason), media);
      r.outcome == Fail(reason) && r.player.sink == p.sink && r.player.currentPath == Some(path)
  {
  }

  /** When the file cannot be opened or decoded, the fresh sink stays empty:
      playback has stopped. */
  lemma PlayBadFile(p: Player, path: string, media: Media)
    requires !media.Decoded?
    ensures var r := Play(p, true, path, Pass, media);
      r.outcome.Fail? && r.player.sink == Some(FreshSink)
  {
  }

  /** Pausing and resuming change only the paused flag: resuming after a
      pause is resuming, and each is idempotent. */
  lemma PauseResume(p: Player)
    ensures Resume(Pause(p)) == Resume(p) && Pause(Resume(p)) == Pause(p)
    ensures Pause(Pause(p)) == Pause(p) && Resume(Resume(p)) == Resume(p)
  {
  }

  /** The process-wide audio state behind the `Mutex`. */
  class AudioState {
    /** Whether the default output stream opened when the state was made. */
    const hasStream: bool
    var sink: Option<Sink>
    var appAttached: bool
    var currentPath: Option<string>
    var durations: seq<real>

    function Snapshot(): Player
      reads this
    {
      Player(sink, appAttached, currentPath, durations)
    }

    ghost predicate Valid()
      reads this
    {
      Coherent(Snapshot(), hasStream)
    }

    constructor (device: Outcome, sinkCreation: Outcome)
      ensures Valid() && hasStream == device.Pass? && Snapshot() == NewPlayer(device, sinkCreation)
    {
      hasStream := device.Pass?;
      sink := if device.Pass? && sinkCreation.Pass? then Some(FreshSink) else None;
      appAttached := false;
      currentPath := None;
      durations := [];
    }

    method SetupSinkAndPlay(path: string, skip: real, media: Media) returns (r: Outcome)
      requires sink.Some? && (media.Decoded? ==> skip >= 0.0)
      modifies this
      ensures Reply(Snapshot(), r) == Setup(old(Snapshot()), path, skip, media)
    {
      match media
      case OpenFailed(reason) =>
        return Fail(reason);
      case DecodeFailed(reason) =>
        return Fail(reason);
      case Decoded(duration) =>
        if duration.Some? {
          durations := durations + [duration.value];
        }
        sink := Some(sink.value.(queue := sink.value.queue + [Queued(path, skip)]));
        sink := Some(sink.value.(paused := false));
        return Pass;
    }

    method PlayTrack(path: string, sinkCreation: Outcome, media: Media) returns (r: Outcome)
      requires Valid()
      modifies this
      ensures Valid()
      ensures Reply(Snapshot(), r) == Play(old(Snapshot()), hasStream, path, sinkCreation, media)
    {
      appAttached := true;
      currentPath := Some(path);
      if hasStream {
        if sinkCreation.Fail? {
          return sinkCreation;
        }
        sink := Some(FreshSink);
      }
      if sink.Some? {
        r := SetupSinkAndPlay(path, 0.0, media);
      } else {
        r := Pass;
      }
    }

    method SeekTrack(seconds: real, sinkCreation: Outcome, media: Media) returns (r: Outcome)
      requires Valid()
      requires currentPath.Some? && media.Decoded? && (hasStream ==> sinkCreation.Pass?) && (hasStream || sink.Some?) ==>
        seconds >= 0.0
      modifies this
      ensures Valid()
      ensures Reply(Snapshot(), r) == Seek(old(Snapshot()), hasStream, seconds, sinkCreation, media)
    {
      if currentPath.None? {
        return Pass;
      }
      var path := currentPath.value;
      if hasStream {
        if sinkCreation.Fail? {
          return sinkCreation;
        }
        sink := Some(FreshSink);
      }
      if sink.Some? {
        r := SetupSinkAndPlay(path, seconds, media);
      } else {
        r := Pass;
      }
    }

    method PauseTrack()
      requires Valid()
      modifies this
      ensures Valid() && Snapshot() == Pause(old(Snapshot()))
    {
      if sink.Some? {
        sink := Some(sink.value.(paused := true));
      }
    }

    method ResumeTrack()
      requires Valid()
      modifies this
      ensures Valid() && Snapshot() == Resume(old(Snapshot()))
    {
      if sink.Some? {
        sink := Some(sink.value.(paused := false));
      }
    }

    method SetVolumeTo(volume: real)
      requires Valid()
      modifies this
      ensures Valid() && Snapshot() == SetVolume(old(Snapshot()), volume)
    {
      if sink.Some? {
        sink := Some(sink.value.(volume := volume));
      }
    }
  }
}
