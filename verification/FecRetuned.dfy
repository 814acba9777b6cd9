/** A decoder with the wrong shard counts that hears an encoder: it retunes to that
    encoder's counts, and from there on recovers that encoder's packets. */
module FecRetuned {
  import opened Serial
  import opened FecCode
  import opened FecDecoder
  import opened FecRuns
  import opened FecRounds
  import opened FecEncoder
  import opened FecRoundTrip
  import AutoTune
  import opened FecDecoderClass

  function PulseOf(x: Pkt): AutoTune.Pulse { AutoTune.Pulse(x.flag == TYPE_DATA, x.seqid) }

  /** Every sample is of a packet the encoder sent. */
  ghost predicate SampledFrom(t: seq<AutoTune.Pulse>, calls: seq<Call>, d: nat) {
    forall i :: 0 <= i < |t| ==> SampleFrom(t[i], calls, d)
  }

  ghost predicate SampleFrom(x: AutoTune.Pulse, calls: seq<Call>, d: nat) {
    exists a :: a in Stamped(calls, d) && x == PulseOf(a.x)
  }

  lemma SoundPulse(c: Codec, d: nat, p: nat, f: Filing, a: Arrival)
    requires 0 < d && 0 < p && d + p <= 256 && |f.cur| < d && Sound(c, d, d + p, f, a)
    ensures AutoTune.Genuine(PulseOf(a.x), d, p)
  {
    hide IdOf, Paws, ShardOf;
  }

  lemma StampedIsSound(c: Codec, d: nat, p: nat, nexts: seq<u32>, fills: seq<seq<Shard>>, calls: seq<Call>, a: Arrival)
    requires IsEncoding(c, d, p, nexts, fills, calls) && a in Stamped(calls, d)
    ensures |File(calls, d).cur| < d && Sound(c, d, d + p, File(calls, d), a)
  {
    hide Encodes, Sound, Stamped, File;
    EncodingIsFiled(c, d, p, nexts, fills, calls, |calls|);
    assert calls[..|calls|] == calls;
  }

  lemma SamplesAreGenuine(c: Codec, d: nat, p: nat, nexts: seq<u32>, fills: seq<seq<Shard>>, calls: seq<Call>, t: seq<AutoTune.Pulse>)
    requires IsEncoding(c, d, p, nexts, fills, calls) && d + p <= 256 && SampledFrom(t, calls, d)
    ensures AutoTune.AllGenuine(t, d, p)
  {
    hide Stamped, Sound, AutoTune.Genuine, PulseOf, File, Encodes;
    forall i | 0 <= i < |t| ensures AutoTune.Genuine(t[i], d, p) {
      assert SampleFrom(t[i], calls, d);
      var a :| a in Stamped(calls, d) && t[i] == PulseOf(a.x);
      StampedIsSound(c, d, p, nexts, fills, calls, a);
      SoundPulse(c, d, p, File(calls, d), a);
    }
  }

  /** Hearing an encoder, a decoder that retunes and did not have its counts starts
      again empty, with the encoder's counts, at the group of the packet it heard. */
  lemma RetunesAtGroup(c: Codec, d: nat, p: nat, nexts: seq<u32>, fills: seq<seq<Shard>>, calls: seq<Call>,
                       t: seq<AutoTune.Pulse>, b: u32, dec: Dec, dec': Dec, a: Arrival)
    requires IsEncoding(c, d, p, nexts, fills, calls) && d + p <= 256 && SampledFrom(t, calls, d) && AutoTune.InHalf(b, t)
    requires a in Stamped(calls, d) && (dec.d != d || dec.p != p) && Retuned(t, dec, dec', true, false, a.x)
    ensures dec' == Dec(d, p, map[], IdOf(a.g, d + p))
  {
    hide Stamped, AutoTune.InHalf, AutoTune.Retained, AutoTune.AllGenuine, Retuned, IdOf, File, Encodes, InFill, Genuine;
    SamplesAreGenuine(c, d, p, nexts, fills, calls, t);
    RetunesToSender(t, d, p, b, dec, dec', false, a.x);
    StampedIsSound(c, d, p, nexts, fills, calls, a);
  }

  /** And from there on the encoder's packets come back: of the group of an arrival
      that completes a round exactly those of which no shard arrived in the round. */
  lemma RetunedComesBack(c: Codec, d: nat, p: nat, nexts: seq<u32>, fills: seq<seq<Shard>>, calls: seq<Call>,
                         t: seq<AutoTune.Pulse>, b: u32, dec: Dec, a: Arrival, decs: seq<Dec>, hist: seq<Arrival>, k: nat, m: nat)
    requires IsEncoding(c, d, p, nexts, fills, calls) && d + p <= 256 && SampledFrom(t, calls, d) && AutoTune.InHalf(b, t)
    requires a in Stamped(calls, d) && (dec.d != d || dec.p != p)
    requires |decs| == |hist| + 1 && Retuned(t, dec, decs[0], true, false, a.x) && IsFed(decs, a.g, hist, calls, d, p, c)
    requires Mds(c, d, p) && m <= k < |hist|
    requires Kept(Newest(a.g, hist[..k + 1]), hist[k].g, d + p) && hist[k].g < |File(calls, d).full|
    requires RoundStart(hist, hist[k].g, d, m) && |Ids(hist[m..k], hist[k].g)| < d
    ensures Recovered(decs, hist, calls, c, d, p, k, m)
  {
    hide Stamped, AutoTune.InHalf, Retuned, IdOf, File, Encodes, IsEncoding, Mds, Kept, RoundStart, Ids, Recovered, SampledFrom, Fed, Close;
    RetunesAtGroup(c, d, p, nexts, fills, calls, t, b, dec, decs[0], a);
    PacketsComeBack(c, d, p, nexts, fills, calls, decs, a.g, hist, k, m);
  }
}
