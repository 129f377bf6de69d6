/**
 * Sound buffers and their sum: src/libsvc/audio.c:26-56.  Samples are real numbers, since
 * floating-point rounding is not part of this model.
 */
module Audio {
  type Frame = seq<real>

  /** `svc_audio_data_copy` (26-30): nothing is copied between sizes. */
  function AudioCopy(dest: Frame, source: Frame): Frame {
    if |dest| != |source| then dest else source
  }

  /** The exact sum of sample k of some frames. */
  function Sum(frames: seq<Frame>, k: nat): real
    requires forall i :: 0 <= i < |frames| ==> k < |frames[i]|
  {
    if frames == [] then 0.0 else Sum(frames[..|frames| - 1], k) + frames[|frames| - 1][k]
  }

  /** How many of the first frames have the given size. */
  function Fitting(frames: seq<Frame>, size: nat): (n: nat)
    ensures n <= |frames|
    ensures forall i :: 0 <= i < n ==> |frames[i]| == size
    ensures n < |frames| ==> |frames[n]| != size
  {
    if frames == [] || |frames[0]| != size then 0 else 1 + Fitting(frames[1..], size)
  }

  /** `svc_clear_audio_data`. */
  method ClearAudioData(data: array<real>)
    modifies data
    ensures forall k :: 0 <= k < data.Length ==> data[k] == 0.0
  {
    var k := 0;
    while k < data.Length
      invariant k <= data.Length && forall j :: 0 <= j < k ==> data[j] == 0.0
    {
      data[k] := 0.0;
      k := k + 1;
    }
  }

  /** `svc_mix_audio_streams`: the result is the sum of the streams before the first one of
      another size, which also ends the mixing with -1. */
  method MixAudioStreams(streams: seq<Frame>, result: array<real>) returns (code: int)
    modifies result
    ensures code == if Fitting(streams, result.Length) == |streams| then 0 else -1
    ensures forall k :: 0 <= k < result.Length ==>
              result[k] == Sum(streams[..Fitting(streams, result.Length)], k)
  {
    ClearAudioData(result);
    var i := 0;
    ghost var n := Fitting(streams, result.Length);
    while i < |streams|
      invariant i <= n
      invariant forall k :: 0 <= k < result.Length ==> result[k] == Sum(streams[..i], k)
    {
      if |streams[i]| != result.Length {
        return -1;
      }
      var k := 0;
      assert streams[..i + 1][..i] == streams[..i];
      while k < result.Length
        invariant k <= result.Length
        invariant forall j :: 0 <= j < result.Length ==> result[j] == Sum(streams[..if j < k then i + 1 else i], j)
      {
        result[k] := result[k] + streams[i][k];
        k := k + 1;
      }
      i := i + 1;
    }
    return 0;
  }

  /** A copy never changes the size of the buffer copied to, and takes place only between
      buffers of one size. */
  lemma CopyKeepsSize(dest: Frame, source: Frame)
    ensures |AudioCopy(dest, source)| == |dest|
    ensures AudioCopy(dest, source) == source <==> |dest| == |source|
    ensures |dest| != |source| ==> AudioCopy(dest, source) == dest
  {
  }
}
