/**
 Keeping bounded diagnostics of database logs (scripts/upgrade_release_gate.py, _preserve_seekdb_logs): a shared
 budget, a cap per file, and the head and the tail of a file that is too long.
 */
module LogSampling {
  import opened Sequences

  const BUDGET: nat := 16 * 1024 * 1024
  const PER_FILE: nat := 4 * 1024 * 1024

  /** A path under the log directories: its size when asked for, and its bytes when read. */
  datatype LogFile = LogFile(regular: bool, size: nat, bytes: seq<bv8>)

  datatype Part = Whole | Head | Tail

  /** A piece of a file in the archive. */
  datatype Segment = Segment(part: Part, offset: nat, wanted: nat, bytes: seq<bv8>)

  /** The manifest entry of one file. */
  datatype Sample = Sample(index: nat, size: nat, captured: nat, truncated: bool, segments: seq<Segment>)

  /** Nothing changed between asking for the size and reading. */
  predicate Fixed(f: LogFile) {
    |f.bytes| == f.size
  }

  /** What reading `count` bytes at an offset returns: fewer near the end. */
  function ReadAt(bytes: seq<bv8>, offset: nat, count: nat): (read: seq<bv8>)
    ensures |read| <= count
    ensures offset + count <= |bytes| ==> read == bytes[offset..offset + count]
  {
    var from := Min(offset, |bytes|);
    bytes[from..Min(from + count, |bytes|)]
  }

  // ----- What a sample is -----

  function SegmentBytes(segments: seq<Segment>): nat {
    if segments == [] then 0 else SegmentBytes(segments[..|segments| - 1]) + |segments[|segments| - 1].bytes|
  }

  /** Segments lie inside the file, one behind the other, and hold what was read there. */
  ghost predicate Placed(f: LogFile, segments: seq<Segment>) {
    && (forall k :: 0 <= k < |segments| ==>
      && segments[k].offset + segments[k].wanted <= f.size
      && segments[k].bytes == ReadAt(f.bytes, segments[k].offset, segments[k].wanted))
    && forall j, k :: 0 <= j < k < |segments| ==> segments[j].offset + segments[j].wanted <= segments[k].offset
  }

  function WholeOf(f: LogFile): Segment {
    Segment(Whole, 0, f.size, ReadAt(f.bytes, 0, f.size))
  }

  function HeadOf(f: LogFile, length: nat): Segment {
    Segment(Head, 0, length / 2, ReadAt(f.bytes, 0, length / 2))
  }

  function TailOf(f: LogFile, length: nat): Segment
    requires length <= f.size
  {
    var count := length - length / 2;
    Segment(Tail, f.size - count, count, ReadAt(f.bytes, f.size - count, count))
  }

  /** The whole file, or half of the length from its start and the rest from its end; no empty head. */
  ghost predicate HeadAndTail(f: LogFile, length: nat, segments: seq<Segment>) {
    if length >= f.size then segments == [WholeOf(f)]
    else if length < 2 then segments == [TailOf(f, length)]
    else segments == [HeadOf(f, length), TailOf(f, length)]
  }

  ghost predicate SoundSample(f: LogFile, s: Sample, remaining: nat) {
    && f.regular && s.size == f.size
    && Placed(f, s.segments)
    && s.captured == SegmentBytes(s.segments) <= Min(PER_FILE, remaining)
    && (s.truncated <==> s.captured < s.size)
    && (Fixed(f) ==> s.captured == Min(s.size, Min(PER_FILE, remaining)))
    && (remaining > 0 ==> HeadAndTail(f, Min(s.size, Min(PER_FILE, remaining)), s.segments))
  }

  // ----- One file -----

  lemma SegmentSums(a: Segment, b: Segment)
    ensures SegmentBytes([]) == 0 && SegmentBytes([a]) == |a.bytes|
    ensures SegmentBytes([a, b]) == |a.bytes| + |b.bytes|
  {
    assert [a, b][..1] == [a];
  }

  lemma {:induction false} OneMoreSegment(segments: seq<Segment>, s: Segment)
    ensures SegmentBytes(segments + [s]) == SegmentBytes(segments) + |s.bytes|
  {
    assert (segments + [s])[..|segments|] == segments;
  }

  method SampleFile(f: LogFile, index: nat, budget: nat) returns (s: Sample, remaining: nat)
    requires f.regular && budget > 0
    ensures SoundSample(f, s, budget) && s.index == index
    ensures remaining + s.captured == budget
  {
    hide Placed, SegmentBytes, ReadAt, SoundSample;
    var size := f.size;
    var length := Min(size, Min(PER_FILE, budget));
    var ranges: seq<(Part, nat, nat)>;
    if length < size {
      var head := length / 2;
      ranges := [(Head, 0, head), (Tail, size - (length - head), length - head)];
    } else {
      ranges := [(Whole, 0, length)];
    }
    var segments: seq<Segment> := [];
    var captured := 0;
    remaining := budget;
    NoSegments();
    for k := 0 to |ranges|
      invariant k == 0 ==> segments == []
      invariant k == 1 && length < size && length < 2 ==> segments == []
      invariant k == 1 && length < size && length >= 2 ==> segments == [HeadOf(f, length)]
      invariant k == |ranges| ==> HeadAndTail(f, length, segments)
      invariant captured == SegmentBytes(segments) && captured + remaining == budget
      invariant captured <= if k == 0 then 0 else if k == 1 && length < size then length / 2 else length
    {
      var (part, offset, count) := ranges[k];
      if count == 0 && size != 0 {
        continue;
      }
      var content := ReadAt(f.bytes, offset, count);
      OneMoreSegment(segments, Segment(part, offset, count, content));
      segments := segments + [Segment(part, offset, count, content)];
      remaining := remaining - |content|;
      captured := captured + |content|;
    }
    s := Sample(index, size, captured, captured < size, segments);
    SampleIsSound(f, s, budget);
  }

  lemma NoSegments()
    ensures SegmentBytes([]) == 0
  {
  }

  lemma SampleIsSound(f: LogFile, s: Sample, budget: nat)
    requires f.regular && budget > 0 && s.size == f.size && (s.truncated <==> s.captured < s.size)
    requires s.captured == SegmentBytes(s.segments) <= Min(s.size, Min(PER_FILE, budget))
    requires HeadAndTail(f, Min(s.size, Min(PER_FILE, budget)), s.segments)
    ensures SoundSample(f, s, budget)
  {
    hide Placed, SegmentBytes, HeadAndTail;
    PlacedSegments(f, Min(s.size, Min(PER_FILE, budget)), s.segments);
  }

  lemma {:induction false} PlacedSegments(f: LogFile, length: nat, segments: seq<Segment>)
    requires HeadAndTail(f, length, segments) && length <= f.size
    requires length == 0 ==> f.size == 0
    ensures Placed(f, segments)
    ensures Fixed(f) ==> SegmentBytes(segments) == length
  {
    hide ReadAt, SegmentBytes;
    SegmentSums(segments[0], segments[|segments| - 1]);
  }

  // ----- All files -----

  function Captured(samples: seq<Sample>): nat {
    if samples == [] then 0 else Captured(samples[..|samples| - 1]) + samples[|samples| - 1].captured
  }

  lemma {:induction false} OneMoreSample(samples: seq<Sample>, s: Sample)
    ensures Captured(samples + [s]) == Captured(samples) + s.captured
  {
    assert (samples + [s])[..|samples|] == samples;
  }

  /** The budget left for the k-th sample. */
  function LeftFor(samples: seq<Sample>, k: nat): int
    requires k <= |samples|
  {
    BUDGET - Captured(samples[..k])
  }

  ghost predicate SoundAt(files: seq<LogFile>, samples: seq<Sample>, k: nat)
    requires k < |samples|
  {
    && samples[k].index < |files| && LeftFor(samples, k) > 0
    && SoundSample(files[samples[k].index], samples[k], LeftFor(samples, k))
  }

  predicate Sampled(samples: seq<Sample>, i: nat) {
    exists k :: 0 <= k < |samples| && samples[k].index == i
  }

  /** Each sample is sound for the budget left to it, and samples follow the order of the files. */
  ghost predicate SoundSamples(files: seq<LogFile>, samples: seq<Sample>) {
    && (forall k :: 0 <= k < |samples| ==> SoundAt(files, samples, k))
    && forall j, k :: 0 <= j < k < |samples| ==> samples[j].index < samples[k].index
  }

  /** What the files would take with no shared budget. */
  function Wanted(files: seq<LogFile>): nat {
    if files == [] then 0
    else
      var f := files[|files| - 1];
      var before := Wanted(files[..|files| - 1]);
      if f.regular then before + Min(f.size, PER_FILE) else before
  }

  lemma {:induction false} WantedGrows(files: seq<LogFile>, n: nat)
    requires n <= |files|
    ensures Wanted(files[..n]) <= Wanted(files)
    decreases |files| - n
  {
    if n < |files| {
      WantedGrows(files, n + 1);
      assert files[..n + 1][..n] == files[..n];
    } else {
      assert files[..n] == files;
    }
  }

  lemma {:induction false} SoundWithOneMore(files: seq<LogFile>, samples: seq<Sample>, s: Sample, remaining: nat)
    requires SoundSamples(files, samples) && Captured(samples) + remaining == BUDGET && remaining > 0
    requires s.index < |files| && SoundSample(files[s.index], s, remaining)
    requires forall k :: 0 <= k < |samples| ==> samples[k].index < s.index
    ensures SoundSamples(files, samples + [s])
  {
    hide SoundSample, Captured, BUDGET;
    var all := samples + [s];
    forall k | 0 <= k < |all| ensures SoundAt(files, all, k) {
      assert all[..k] == samples[..k];
      if k < |samples| {
        assert SoundAt(files, samples, k);
      } else {
        assert samples[..k] == samples;
      }
    }
  }

  /**
   Sampling conserves its budget, keeps every file under its cap, and records every regular file until the budget is
   used up; when the files stay as they are it takes as much as the budget allows.
   */
  method PreserveLogs(files: seq<LogFile>) returns (samples: seq<Sample>, remaining: nat)
    ensures Captured(samples) + remaining == BUDGET
    ensures SoundSamples(files, samples)
    ensures forall i :: 0 <= i < |files| && files[i].regular ==>
      Sampled(samples, i) || (remaining == 0 && forall k :: 0 <= k < |samples| ==> samples[k].index < i)
    ensures (forall i :: 0 <= i < |files| ==> Fixed(files[i])) ==> Captured(samples) == Min(BUDGET, Wanted(files))
  {
    hide SoundSample, SoundSamples, Captured, Wanted;
    samples, remaining := [], BUDGET;
    NothingSampled(files);
    for i := 0 to |files|
      invariant Captured(samples) + remaining == BUDGET
      invariant SoundSamples(files, samples)
      invariant forall k :: 0 <= k < |samples| ==> samples[k].index < i
      invariant forall j :: 0 <= j < i && files[j].regular ==> Sampled(samples, j)
      invariant (forall j :: 0 <= j < |files| ==> Fixed(files[j])) ==>
        Captured(samples) == Min(BUDGET, Wanted(files[..i]))
    {
      if remaining == 0 {
        WantedGrows(files, i);
        return;
      }
      OneMoreWanted(files, i);
      if !files[i].regular {
        continue;
      }
      ghost var before := remaining;
      var s;
      s, remaining := SampleFile(files[i], i, remaining);
      SoundWithOneMore(files, samples, s, before);
      OneMoreSample(samples, s);
      TakesWhatItCan(files[i], s, before);
      StillSampled(samples, s);
      samples := samples + [s];
    }
    assert files[..|files|] == files;
  }

  lemma NothingSampled(files: seq<LogFile>)
    ensures SoundSamples(files, []) && Captured([]) == 0 && Wanted(files[..0]) == 0
  {
  }

  lemma OneMoreWanted(files: seq<LogFile>, i: nat)
    requires i < |files|
    ensures Wanted(files[..i + 1]) ==
      if files[i].regular then Wanted(files[..i]) + Min(files[i].size, PER_FILE) else Wanted(files[..i])
  {
    assert files[..i + 1][..i] == files[..i];
  }

  lemma TakesWhatItCan(f: LogFile, s: Sample, remaining: nat)
    requires SoundSample(f, s, remaining)
    ensures Fixed(f) ==> s.captured == Min(Min(f.size, PER_FILE), remaining)
  {
  }

  lemma StillSampled(samples: seq<Sample>, s: Sample)
    ensures forall i :: Sampled(samples, i) ==> Sampled(samples + [s], i)
    ensures Sampled(samples + [s], s.index)
  {
    var all := samples + [s];
    assert forall k :: 0 <= k < |samples| ==> all[k] == samples[k];
    assert all[|samples|] == s;
  }

  /** With files that stay as they are, a file is marked truncated exactly when it is longer than cap or budget left. */
  lemma TruncatedExactly(files: seq<LogFile>, samples: seq<Sample>, k: nat)
    requires k < |samples| && SoundAt(files, samples, k) && Fixed(files[samples[k].index])
    ensures samples[k].truncated <==> samples[k].size > Min(PER_FILE, LeftFor(samples, k))
  {
    hide HeadAndTail, Placed, Captured, SegmentBytes;
  }

  /** What is archived of a truncated file that stayed as it was: its first and its last bytes, not overlapping. */
  lemma KeepsBothEnds(f: LogFile, s: Sample, remaining: nat)
    requires SoundSample(f, s, remaining) && Fixed(f) && remaining > 0 && s.truncated && s.captured >= 2
    ensures |s.segments| == 2
    ensures s.segments[0].bytes == f.bytes[..s.captured / 2]
    ensures s.segments[1].bytes == f.bytes[f.size - (s.captured - s.captured / 2)..]
    ensures s.captured / 2 <= f.size - (s.captured - s.captured / 2)
  {
  }
}
