/**
 * The body of the sampling loop: read the sensor channel, convert the code
 * to a temperature, append the timestamp and the temperature to the
 * history. The clock and the bus are inputs of each cycle; the conversion
 * to degrees is floating-point code outside this model and is a parameter.
 */
module SamplingLoop {
  import opened Mcp3008
  import opened RollingWindow
  import opened RollingHistory

  /** What one cycle takes from the outside world: the clock reading and the bus. */
  datatype Tick = Tick(now: real, bus: Bus)

  /**
   * The pair one cycle records. The reader's result goes to the converter
   * unfiltered, as in the loop; on the sensor channel it is never the
   * sentinel (Mcp3008.SensorReadIsSample).
   */
  function Sampled(tick: Tick, convert: int -> real): (r: (real, real))
    ensures r.0 == tick.now
    ensures r.1 == convert(Decode(tick.bus([1, 128, 0])))
  {
    (tick.now, convert(ReadAdc(TempSensorChannel, tick.bus).value))
  }

  /** The pairs a series of cycles records, one per cycle, in order. */
  function Samples(ticks: seq<Tick>, convert: int -> real): (r: seq<(real, real)>)
    ensures |r| == |ticks|
    ensures forall i :: 0 <= i < |ticks| ==> r[i] == Sampled(ticks[i], convert)
  {
    if ticks == [] then []
    else Samples(ticks[..|ticks| - 1], convert) + [Sampled(ticks[|ticks| - 1], convert)]
  }

  /** One pass of the loop; returns the temperature it prints. */
  method Cycle(h: History, tick: Tick, convert: int -> real) returns (temperature: real)
    requires h.Valid()
    modifies h.timeData, h.temperatureData
    ensures h.Valid()
    ensures (tick.now, temperature) == Sampled(tick, convert)
    ensures h.Readings() == Window(old(h.Readings()) + [Sampled(tick, convert)], Capacity)
  {
    var adcValue := ReadAdc(TempSensorChannel, tick.bus).value;
    temperature := convert(adcValue);
    h.Record(tick.now, temperature);
  }

  /**
   * The loop run for as many cycles as there are ticks (the interrupt that
   * ends it comes between two cycles). The history ends up as the window
   * on everything it held before followed by every cycle's pair.
   */
  method Run(h: History, ticks: seq<Tick>, convert: int -> real) returns (temperatures: seq<real>)
    requires h.Valid()
    modifies h.timeData, h.temperatureData
    ensures h.Valid()
    ensures h.Readings() == Window(old(h.Readings()) + Samples(ticks, convert), Capacity)
    ensures |temperatures| == |ticks|
    ensures forall i :: 0 <= i < |ticks| ==> temperatures[i] == Sampled(ticks[i], convert).1
  {
    ghost var start := h.Readings();
    temperatures := [];
    for i := 0 to |ticks|
      invariant h.Valid()
      invariant h.Readings() == Window(start + Samples(ticks[..i], convert), Capacity)
      invariant |temperatures| == i
      invariant forall k :: 0 <= k < i ==> temperatures[k] == Sampled(ticks[k], convert).1
    {
      var temperature := Cycle(h, ticks[i], convert);
      RunStep(start, ticks, i, convert);
      TemperaturesStep(temperatures, temperature, ticks, i, convert);
      temperatures := temperatures + [temperature];
    }
    assert ticks[..|ticks|] == ticks;
  }

  /** One more cycle extends the window on the history by that cycle's pair. */
  lemma RunStep(start: seq<(real, real)>, ticks: seq<Tick>, i: nat, convert: int -> real)
    requires i < |ticks|
    ensures Window(Window(start + Samples(ticks[..i], convert), Capacity) + [Sampled(ticks[i], convert)], Capacity)
            == Window(start + Samples(ticks[..i + 1], convert), Capacity)
  {
    var before := start + Samples(ticks[..i], convert);
    WindowAbsorbs(before, [Sampled(ticks[i], convert)], Capacity);
    assert ticks[..i + 1][..i] == ticks[..i];
    assert before + [Sampled(ticks[i], convert)] == start + Samples(ticks[..i + 1], convert);
  }

  /** One more cycle appends that cycle's temperature to those printed so far. */
  lemma TemperaturesStep(temperatures: seq<real>, temperature: real, ticks: seq<Tick>, i: nat, convert: int -> real)
    requires i < |ticks| && |temperatures| == i
    requires forall k :: 0 <= k < i ==> temperatures[k] == Sampled(ticks[k], convert).1
    requires temperature == Sampled(ticks[i], convert).1
    ensures forall k :: 0 <= k < i + 1 ==> (temperatures + [temperature])[k] == Sampled(ticks[k], convert).1
  {
  }

  /**
   * Three cycles from an empty history whose converter holds the codes 100,
   * 200 and 300 record exactly those three conversions, in that order,
   * whatever first byte the converter sends.
   */
  lemma ThreeCycles(first: Byte, t0: real, t1: real, t2: real, convert: int -> real)
    ensures Window([] + Samples([Tick(t0, Holding(first, 100)),
                                 Tick(t1, Holding(first, 200)),
                                 Tick(t2, Holding(first, 300))], convert), Capacity)
            == [(t0, convert(100)), (t1, convert(200)), (t2, convert(300))]
  {
    var ticks := [Tick(t0, Holding(first, 100)),
                  Tick(t1, Holding(first, 200)),
                  Tick(t2, Holding(first, 300))];
    SamplesOfThree(ticks[0], ticks[1], ticks[2], convert);
    assert ticks == [ticks[0], ticks[1], ticks[2]];
    SampledOfSample(first, t0, 100, convert);
    SampledOfSample(first, t1, 200, convert);
    SampledOfSample(first, t2, 300, convert);
    WindowOfShort([] + Samples(ticks, convert), Capacity);
  }

  /** Three cycles record their three pairs in order. */
  lemma SamplesOfThree(a: Tick, b: Tick, c: Tick, convert: int -> real)
    ensures Samples([a, b, c], convert) == [Sampled(a, convert), Sampled(b, convert), Sampled(c, convert)]
  {
  }

  /** A cycle whose converter holds v records its timestamp with the conversion of v. */
  lemma SampledOfSample(first: Byte, now: real, v: int, convert: int -> real)
    requires 0 <= v <= MaxSample
    ensures Sampled(Tick(now, Holding(first, v)), convert) == (now, convert(v))
  {
    ReadAdcOfSample(TempSensorChannel, first, v);
  }

  /**
   * After 61 cycles from an empty history the first cycle's pair is gone
   * and the other 60 remain, in the order they were recorded.
   */
  lemma SixtyOneCycles(ticks: seq<Tick>, convert: int -> real)
    requires |ticks| == Capacity + 1
    ensures Window([] + Samples(ticks, convert), Capacity) == Samples(ticks[1..], convert)
  {
  }
}
