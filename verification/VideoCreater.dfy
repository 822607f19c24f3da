/** The reframing of audio in VideoCreater.hpp: bytes come in packets of any size and leave in
    frames of a fixed size. */
module VideoCreater {
  import opened Arith
  import opened Bytes
  import opened MemoryBuffer

  const AUDIO_SAMPLE_SIZE := 4

  /** What the codec libraries do with a frame: where it fails, if it does. */
  datatype Outcome = NotWritable | NotConverted | NotEncoded | NotWritten | Done {
    predicate Resampled() { !NotWritable? && !NotConverted? }
  }

  /** How many of the first `n` attempts got as far as `samples_count`. */
  function Resampled(encoder: nat -> Outcome, n: nat): nat {
    if n == 0 then 0 else Resampled(encoder, n - 1) + if encoder(n - 1).Resampled() then 1 else 0
  }

  ghost predicate AllDone(encoder: nat -> Outcome, from: nat, to: nat) {
    forall k: nat :: from <= k < to ==> encoder(k).Done?
  }

  class VideoCreater {
    const channel: nat
    const nbSamples: nat       // audio_st.tmp_frame->nb_samples
    const frameSamples: nat    // audio_st.frame->nb_samples
    const encoder: nat -> Outcome // the outcome of the k-th attempt
    const audioBuffer: MemoryBuffer
    var nextPts: nat
    var samplesCount: nat
    var attempts: nat
    var pts: seq<nat> // the time stamps of the frames attempted
    ghost var frames: seq<seq<byte>> // the frames given to the encoder
    ghost var input: seq<byte>       // everything ever written

    function DataSize(): nat { nbSamples * AUDIO_SAMPLE_SIZE * channel }

    ghost predicate Valid()
      reads this, audioBuffer, audioBuffer.repr
    {
      && DataSize() > 0
      && audioBuffer.Valid()
      && attempts == |frames|
      && (forall k :: 0 <= k < |frames| ==> |frames[k]| == DataSize())
      && Flatten(frames) + audioBuffer.Contents() == input
      && Counted()
    }

    ghost predicate Counted()
      reads this
    {
      && nextPts == attempts * nbSamples && samplesCount == Resampled(encoder, attempts) * frameSamples
      && |pts| == attempts && (forall k :: 0 <= k < |pts| ==> pts[k] == k * nbSamples)
    }

    constructor (channel: nat, nbSamples: nat, frameSamples: nat, encoder: nat -> Outcome)
      requires nbSamples > 0 && channel > 0
      ensures Valid() && frames == [] && input == []
      ensures fresh(audioBuffer) && fresh(audioBuffer.repr)
    {
      this.channel, this.nbSamples, this.frameSamples, this.encoder := channel, nbSamples, frameSamples, encoder;
      audioBuffer := new MemoryBuffer();
      nextPts, samplesCount, attempts, pts, frames, input := 0, 0, 0, [], [], [];
    }

    /** One attempt to encode a frame. */
    method DoWriteAudioPacket(data: array<byte>) returns (ok: bool)
      requires Counted()
      modifies this`nextPts, this`samplesCount, this`attempts, this`pts, this`frames
      ensures Counted() && attempts == old(attempts) + 1 && frames == old(frames) + [data[..]]
      ensures ok <==> encoder(old(attempts)).Done?
      ensures pts == old(pts) + [old(nextPts)] && nextPts == old(nextPts) + nbSamples
      ensures samplesCount == old(samplesCount) +
                if encoder(old(attempts)).NotWritable? || encoder(old(attempts)).NotConverted? then 0 else frameSamples
    {
      var outcome := encoder(attempts);
      attempts, frames := attempts + 1, frames + [data[..]];
      pts := pts + [nextPts];
      nextPts := nextPts + nbSamples;
      if outcome.NotWritable? { return false; }
      if outcome.NotConverted? { return false; }
      samplesCount := samplesCount + frameSamples;
      if outcome.NotEncoded? { return false; }
      if outcome.NotWritten? { return false; }
      return true;
    }

    /** True exactly if every frame attempted in this call succeeded; then less than a frame is
        left.  False means that the last attempt failed; the frames behind it wait. */
    method WriteAudioPacket(src: array<byte>, n: nat) returns (ok: bool)
      requires Valid() && n <= src.Length
      modifies this, audioBuffer, audioBuffer.repr
      ensures Valid() && input == old(input) + src[..n]
      ensures ok ==> |audioBuffer.Contents()| < DataSize()
      ensures old(frames) <= frames
      ensures ok ==> AllDone(encoder, old(attempts), attempts)
      ensures !ok ==> old(attempts) < attempts && !encoder(attempts - 1).Done?
                      && AllDone(encoder, old(attempts), attempts - 1)
    {
      audioBuffer.Write(src, n);
      input := input + src[..n];
      assert Flatten(frames) + audioBuffer.Contents() == input;
      ok := WriteFrames();
    }

    /** The loop: frames until there is no whole one left, or one fails. */
    method WriteFrames() returns (ok: bool)
      requires Valid()
      modifies this`nextPts, this`samplesCount, this`attempts, this`pts, this`frames, audioBuffer, audioBuffer.repr
      ensures Valid() && audioBuffer.repr == old(audioBuffer.repr)
      ensures ok ==> |audioBuffer.Contents()| < DataSize()
      ensures old(frames) <= frames
      ensures ok ==> AllDone(encoder, old(attempts), attempts)
      ensures !ok ==> old(attempts) < attempts && !encoder(attempts - 1).Done?
                      && AllDone(encoder, old(attempts), attempts - 1)
    {
      ok := true;
      var more := true;
      while more && ok
        invariant Valid() && audioBuffer.repr == old(audioBuffer.repr) && old(frames) <= frames
        invariant !more ==> ok && |audioBuffer.Contents()| < DataSize()
        invariant ok ==> AllDone(encoder, old(attempts), attempts)
        invariant !ok ==> old(attempts) < attempts && !encoder(attempts - 1).Done?
                          && AllDone(encoder, old(attempts), attempts - 1)
        decreases |audioBuffer.Contents()|, more, ok
      {
        more, ok := WriteFrame();
      }
    }

    /** The body of the loop: one frame, if there is one. */
    method WriteFrame() returns (more: bool, ok: bool)
      requires Valid()
      modifies this`nextPts, this`samplesCount, this`attempts, this`pts, this`frames, audioBuffer, audioBuffer.repr
      ensures Valid()
      ensures more <==> DataSize() <= |old(audioBuffer.Contents())|
      ensures more ==> |audioBuffer.Contents()| < |old(audioBuffer.Contents())|
      ensures !more ==> ok && frames == old(frames) && audioBuffer.Contents() == old(audioBuffer.Contents())
      ensures more ==> attempts == old(attempts) + 1 && old(frames) <= frames && (ok <==> encoder(old(attempts)).Done?)
      ensures audioBuffer.repr == old(audioBuffer.repr)
    {
      ghost var pending, sent := audioBuffer.Contents(), frames;
      var data := audioBuffer.Read(DataSize());
      if data == null { return false, true; }
      more := true;
      Reframe(sent, pending, DataSize());
      ok := DoWriteAudioPacket(data);
    }
  }

  lemma Reframe(frames: seq<seq<byte>>, pending: seq<byte>, n: nat)
    requires n <= |pending|
    ensures Flatten(frames + [pending[..n]]) + pending[n..] == Flatten(frames) + pending
  {
    var f, a, b := Flatten(frames), pending[..n], pending[n..];
    FlattenAppend(frames, [a]);
    var none: seq<seq<byte>> := [];
    assert [a][1..] == none;
    assert Flatten([a]) == a + Flatten(none) == a;
    assert (f + a) + b == f + (a + b);
    assert a + b == pending;
  }

  lemma {:induction false} FrameAt(frames: seq<seq<byte>>, size: nat, k: nat)
    requires k < |frames| && forall j :: 0 <= j < |frames| ==> |frames[j]| == size
    ensures (k + 1) * size <= |Flatten(frames)| && frames[k] == Flatten(frames)[k * size..(k + 1) * size]
  {
    var rest := Flatten(frames[1..]);
    assert Flatten(frames) == frames[0] + rest;
    if k > 0 {
      FrameAt(frames[1..], size, k - 1);
      assert (k + 1) * size == k * size + size && k * size == (k - 1) * size + size;
      Shifted(frames[0], rest, (k - 1) * size, k * size);
    } else {
      assert 1 * size == size && 0 * size == 0;
    }
  }

  lemma Shifted(a: seq<byte>, b: seq<byte>, lo: nat, hi: nat)
    requires lo <= hi <= |b|
    ensures (a + b)[|a| + lo..|a| + hi] == b[lo..hi]
  {
  }

  lemma {:induction false} FramesLength(frames: seq<seq<byte>>, size: nat)
    requires forall j :: 0 <= j < |frames| ==> |frames[j]| == size
    ensures |Flatten(frames)| == |frames| * size
  {
    if frames != [] {
      FramesLength(frames[1..], size);
    }
  }

  lemma Quotient(k: nat, size: nat, rest: nat, total: nat)
    requires total == k * size + rest && size > 0
    ensures rest < size <==> k == total / size
  {
    assert total == size * (total / size) + total % size;
    if rest < size {
      DivMod(k, rest, size);
    }
  }

  /** The attempts that got past the resampling. */
  ghost function Samplings(encoder: nat -> Outcome, n: nat): set<nat> {
    set k: nat | k < n && !encoder(k).NotWritable? && !encoder(k).NotConverted?
  }

  lemma {:induction false} ResampledCounts(encoder: nat -> Outcome, n: nat)
    ensures Resampled(encoder, n) == |Samplings(encoder, n)|
  {
    if n > 0 {
      ResampledCounts(encoder, n - 1);
      var before := Samplings(encoder, n - 1);
      var last: set<nat> := if encoder(n - 1).NotWritable? || encoder(n - 1).NotConverted? then {} else {n - 1};
      assert Samplings(encoder, n) == before + last && before !! last;
    }
  }

  /** After any calls: frame `k` bears the time stamp `k * nbSamples`, and the sample count has grown by
      a frame for every attempt that was writable and converted. */
  lemma Bookkeeping(v: VideoCreater, k: nat)
    requires v.Valid()
    ensures v.nextPts == v.attempts * v.nbSamples && |v.pts| == |v.frames| == v.attempts
    ensures k < v.attempts ==> v.pts[k] == k * v.nbSamples
    ensures v.samplesCount == |Samplings(v.encoder, v.attempts)| * v.frameSamples
  {
    ResampledCounts(v.encoder, v.attempts);
  }

  /** A frame is four bytes for each sample of each channel. */
  lemma FrameBytes(v: VideoCreater)
    ensures v.DataSize() == 4 * (v.nbSamples * v.channel)
  {
  }

  /** The frames are the input cut at multiples of the frame size; they are as many as the input
      has whole frames exactly when less than a frame is left, as after a call that returned true. */
  lemma FramesOfInput(v: VideoCreater, k: nat)
    requires v.Valid()
    ensures k < v.attempts ==>
              (k + 1) * v.DataSize() <= |v.input| &&
              v.frames[k] == v.input[k * v.DataSize()..(k + 1) * v.DataSize()]
    ensures |v.audioBuffer.Contents()| < v.DataSize() <==> v.attempts == |v.input| / v.DataSize()
  {
    var size := v.DataSize();
    FramesLength(v.frames, size);
    Quotient(v.attempts, size, |v.audioBuffer.Contents()|, |v.input|);
    if k < v.attempts {
      FrameAt(v.frames, size, k);
    }
  }
}
