/** Thrust tuples and sequences of samples of them. */
module Thrusts {
  datatype Thrust = Thrust(surgePort: real, surgeStarboard: real, heaveA: real, heaveB: real)

  const NO_THRUST := Thrust(0.0, 0.0, 0.0, 0.0)

  /** The sample before sample k, where `prev` is the one before them all. */
  function SampleBefore(prev: Thrust, samples: seq<Thrust>, k: nat): Thrust
    requires k <= |samples|
  {
    if k == 0 then prev else samples[k - 1]
  }

  /** The samples that differ from the one before. */
  function Changes(prev: Thrust, samples: seq<Thrust>): seq<Thrust> {
    if samples == [] then []
    else
      var n := |samples| - 1;
      Changes(prev, samples[..n]) + if samples[n] != SampleBefore(prev, samples, n) then [samples[n]] else []
  }

  lemma ChangesStep(prev: Thrust, samples: seq<Thrust>, sample: Thrust)
    ensures Changes(prev, samples + [sample])
         == Changes(prev, samples) + if sample != SampleBefore(prev, samples, |samples|) then [sample] else []
    ensures SampleBefore(prev, samples + [sample], |samples| + 1) == sample
  {
    assert (samples + [sample])[..|samples|] == samples;
  }
}
