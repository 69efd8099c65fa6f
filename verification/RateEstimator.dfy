/** The effective-rate estimator of the acquisition loop. */
module RateEstimator {
  import opened Words
  import opened VibrationSummary
  import opened TelemetryParser

  const BATCH_FRAMES: u32 := 16
  const NOMINAL_RATE := 400.0

  /** Frames per second since the reference time. */
  function ObservedRate(acceptedFrames: u32, elapsedUs: u32): real
    requires elapsedUs > 0
  {
    Add32(acceptedFrames, 15) as real * 1000000.0 / elapsedUs as real
  }

  /** The observation counts the intervals between the first frame accepted since the
      reference time and the last of the batch now drained. */
  lemma ObservedIntervals(acceptedFrames: u32, elapsedUs: u32)
    requires elapsedUs > 0 && acceptedFrames + 16 <= WORD
    ensures ObservedRate(acceptedFrames, elapsedUs) * (elapsedUs as real / 1000000.0) == (acceptedFrames + 16 - 1) as real
  {
    var n, e := (acceptedFrames + 15) as real, elapsedUs as real;
    assert Add32(acceptedFrames, 15) == acceptedFrames + 15;
    var q := n * 1000000.0 / e;
    assert q * e == n * 1000000.0;
    assert q * (e / 1000000.0) == q * e / 1000000.0;
  }

  /** A tenth of the way toward an observation inside the band; others are ignored. */
  function Observe(rate: real, observed: real): real {
    if 350.0 < observed < 500.0 then 0.9 * rate + 0.1 * observed else rate
  }

  class Estimator {
    var acceptedFrames: u32
    var referenceUs: u32
    var rate: real

    /** The estimate stays strictly inside the plausible band. */
    ghost predicate Valid()
      reads this
    {
      350.0 < rate < 500.0
    }

    constructor (nowUs: u32)
      ensures Valid() && acceptedFrames == 0 && rate == NOMINAL_RATE && referenceUs == nowUs
    {
      acceptedFrames, referenceUs, rate := 0, nowUs, NOMINAL_RATE;
    }

    /** One drained batch: the estimate moves a tenth of the way to an observation
        inside the band and ignores any other; the result is the frame interval. */
    method DrainBatch(nowUs: u32, appended: bool) returns (intervalUs: u32)
      requires Valid()
      modifies this
      ensures Valid() && 2000 <= intervalUs <= 2857
      ensures -0.5 <= intervalUs as real - 1000000.0 / rate <= 0.5
      ensures referenceUs == if old(acceptedFrames) == 0 then Sub32(nowUs, 37500) else old(referenceUs)
      ensures var elapsed := Sub32(nowUs, old(referenceUs));
        rate == if old(acceptedFrames) == 0 || elapsed == 0 then old(rate)
                else Observe(old(rate), ObservedRate(old(acceptedFrames), elapsed))
      ensures acceptedFrames == if appended then Add32(old(acceptedFrames), BATCH_FRAMES) else old(acceptedFrames)
    {
      hide ObservedRate;
      if acceptedFrames == 0 {
        referenceUs := Sub32(nowUs, 37500);
      } else {
        var elapsed := Sub32(nowUs, referenceUs);
        if elapsed > 0 {
          var observed := ObservedRate(acceptedFrames, elapsed);
          if 350.0 < observed < 500.0 {
            rate := 0.9 * rate + 0.1 * observed;
          }
        }
      }
      IntervalRange(rate);
      intervalUs := (1000000.0 / rate + 0.5).Floor;
      if appended {
        acceptedFrames := Add32(acceptedFrames, BATCH_FRAMES);
      }
    }
  }

  lemma IntervalRange(rate: real)
    requires 350.0 < rate < 500.0
    ensures 2000 <= (1000000.0 / rate + 0.5).Floor <= 2857
  {
    var t := 1000000.0 / rate;
    assert t * rate == 1000000.0;
    assert 2000.0 < t < 2857.4;
  }

  function ObserveAll(rate: real, observations: seq<real>): real {
    if observations == [] then rate
    else Observe(ObserveAll(rate, observations[..|observations| - 1]), observations[|observations| - 1])
  }

  /** Over every run of observations the estimate stays inside the band, so the rate
      the encoder sends is one the gateway accepts. */
  lemma {:induction false} RateStaysInBand(observations: seq<real>)
    ensures 350.0 < ObserveAll(NOMINAL_RATE, observations) < 500.0
    decreases |observations|
  {
    if observations != [] {
      RateStaysInBand(observations[..|observations| - 1]);
    }
  }

  /** Acquisition to gateway: a bounded window computed at any rate the estimator can
      reach prints within the message limit, and the gateway accepts it exactly when
      it is numbered. */
  lemma EstimatedWindowAccepted(observations: seq<real>, v: WindowResult, sequence: u32, uptime: u32)
    requires MetricsAreBounded(v) && v.rate == ObserveAll(NOMINAL_RATE, observations)
    ensures var text := Print(WireOf(v, sequence, uptime));
      && |text| <= 228 && |Scan(text)| == 27
      && (ParseVibration(PayloadOf(Scan(text))).Parsed? <==> sequence >= 1)
  {
    hide Print, Scan, ParseVibration, MetricsAreBounded;
    RateStaysInBand(observations);
    PrintLength(WireOf(v, sequence, uptime));
    SummaryRoundTrip(v, sequence, uptime);
  }
}
