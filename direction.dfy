/** The directional energy estimator of `src/audio/direction.py`: a captured
    chunk is reduced to per-channel energies (sums of squared samples), the
    channels are grouped into left/right/front/back regions by a layout chosen
    from the channel count, and the region imbalance gives an angle and an
    intensity. Samples are reals; the square root and the arc tangent are the
    caller's `Math` functions, constrained only as far as the properties need. */
module Direction {
  import opened Text

  /** What `sf.read` hands over: a 1-D array for a mono file, otherwise one
      column of samples per channel. */
  datatype AudioChunk = Mono(samples: seq<real>) | Columns(channels: seq<seq<real>>)

  datatype Layout = Stereo | Surround6 | Surround8

  datatype Region = Front | Back | Left | Right

  datatype RawEnergies = RawEnergies(front: real, back: real, left: real, right: real,
                                     channels: map<string, real>)

  datatype Detection = Detection(angle: real, intensity: real, rawEnergies: RawEnergies)

  /** The `ValueError` raised for a channel count with no layout. */
  datatype DirectionError = UnsupportedChannels(count: nat)

  datatype Result = Ok(detection: Detection) | Err(error: DirectionError)

  /** The floating-point collaborators: `np.sqrt` and `np.degrees(np.arctan2(y, x))`. */
  datatype Math = Math(sqrt: real -> real, atan2Degrees: (real, real) -> real)

  /** `np.sqrt` as far as the estimator relies on it: non-negative on a
      non-negative argument, and zero only at zero. */
  ghost predicate IsSqrt(math: Math)
  {
    forall v :: 0.0 <= v ==> 0.0 <= math.sqrt(v) && (math.sqrt(v) == 0.0 <==> v == 0.0)
  }

  /** `np.sqrt(x*x + y*y)`: non-negative, and zero exactly when x and y are. */
  function SqrtOfSquares(math: Math, x: real, y: real): (m: real)
    requires IsSqrt(math)
    ensures 0.0 <= m
    ensures m == 0.0 <==> x == 0.0 && y == 0.0
  {
    math.sqrt(Square(x) + Square(y))
  }

  /** The `1e-6` added to the magnitude before dividing. */
  const Epsilon: real := 0.000001

  /** Python's float `a % 360`: the remainder takes the sign of the divisor. */
  function Mod360(a: real): (r: real)
    ensures 0.0 <= a < 360.0 ==> r == a
  {
    a - 360.0 * ((a / 360.0).Floor as real)
  }

  function Mul(a: real, b: real): real
  {
    a * b
  }

  /** `v**2`: never negative, and zero only for a zero sample. */
  function Square(v: real): (r: real)
    ensures 0.0 <= r
    ensures r == 0.0 <==> v == 0.0
  {
    SquareSign(v);
    Mul(v, v)
  }

  lemma MulPositive(a: real, b: real)
    requires 0.0 < a && 0.0 < b
    ensures 0.0 < Mul(a, b)
  {
  }

  lemma MulNegated(a: real, b: real)
    ensures Mul(-a, -b) == Mul(a, b)
  {
  }

  lemma SquareSign(x: real)
    ensures x == 0.0 ==> Mul(x, x) == 0.0
    ensures x != 0.0 ==> 0.0 < Mul(x, x)
  {
    if x < 0.0 {
      MulNegated(x, x);
      MulPositive(-x, -x);
    } else if x > 0.0 {
      MulPositive(x, x);
    }
  }

  /** Sum of squared samples, `np.sum(ch**2)`. */
  function Energy(samples: seq<real>): (e: real)
    ensures 0.0 <= e
  {
    if |samples| == 0 then 0.0 else Square(samples[0]) + Energy(samples[1..])
  }

  /** A channel has no energy exactly when every sample is zero. */
  lemma {:induction false} EnergyZeroIffSilent(samples: seq<real>)
    ensures Energy(samples) == 0.0 <==> forall i :: 0 <= i < |samples| ==> samples[i] == 0.0
  {
    if |samples| > 0 {
      EnergyZeroIffSilent(samples[1..]);
      if samples[0] != 0.0 {
        // a loud first sample already makes the energy positive
        assert 0.0 < Energy(samples);
      } else {
        assert Energy(samples) == Energy(samples[1..]);
        if forall i :: 0 <= i < |samples[1..]| ==> samples[1..][i] == 0.0 {
          forall i | 0 <= i < |samples| ensures samples[i] == 0.0 {
            if i > 0 { assert samples[i] == samples[1..][i - 1]; }
          }
        } else {
          var i :| 0 <= i < |samples[1..]| && samples[1..][i] != 0.0;
          assert samples[i + 1] != 0.0;
        }
      }
    }
  }

  /** Mono is duplicated into eight identical columns; other input is used as read. */
  function ChannelColumns(chunk: AudioChunk): seq<seq<real>>
  {
    match chunk
    case Mono(s) => seq(8, _ => s)
    case Columns(cs) => cs
  }

  /** The layout dispatch on `num_channels`. */
  function LayoutFor(n: nat): (r: Option<Layout>)
    ensures r.Some? <==> n == 2 || n == 6 || n >= 8
    ensures r.Some? ==> |ChannelNames(r.value)| <= n
  {
    if n == 2 then Some(Stereo)
    else if n == 6 then Some(Surround6)
    else if n >= 8 then Some(Surround8)
    else None
  }

  /** The keys of the `energies` dictionary, in column order. */
  function ChannelNames(layout: Layout): seq<string>
  {
    match layout
    case Stereo => ["FL", "FR"]
    case Surround6 => ["FL", "FR", "C", "LFE", "SL", "SR"]
    case Surround8 => ["FL", "FR", "C", "LFE", "SL", "SR", "RL", "RR"]
  }

  /** The `energies` dictionary for the chosen layout. */
  function ChannelEnergies(layout: Layout, cols: seq<seq<real>>): map<string, real>
    requires |ChannelNames(layout)| <= |cols|
  {
    match layout
    case Stereo =>
      map["FL" := Energy(cols[0]), "FR" := Energy(cols[1])]
    case Surround6 =>
      map["FL" := Energy(cols[0]), "FR" := Energy(cols[1]), "C" := Energy(cols[2]),
          "LFE" := Energy(cols[3]), "SL" := Energy(cols[4]), "SR" := Energy(cols[5])]
    case Surround8 =>
      map["FL" := Energy(cols[0]), "FR" := Energy(cols[1]), "C" := Energy(cols[2]),
          "LFE" := Energy(cols[3]), "SL" := Energy(cols[4]), "SR" := Energy(cols[5]),
          "RL" := Energy(cols[6]), "RR" := Energy(cols[7])]
  }

  /** The region sums as the three branches of `detect_direction` compute them:
      from the dictionary for 2 and 6 channels, from the columns for 8 or more. */
  function RegionSums(layout: Layout, cols: seq<seq<real>>): RawEnergies
    requires |ChannelNames(layout)| <= |cols|
  {
    var e := ChannelEnergies(layout, cols);
    match layout
    case Stereo =>
      RawEnergies(e["FL"] + e["FR"], 0.0, e["FL"], e["FR"], e)
    case Surround6 =>
      RawEnergies(e["FL"] + e["FR"] + e["C"], e["SL"] + e["SR"],
                  e["FL"] + e["SL"], e["FR"] + e["SR"], e)
    case Surround8 =>
      RawEnergies(Energy(cols[0]) + Energy(cols[1]) + Energy(cols[2]),
                  Energy(cols[4]) + Energy(cols[5]),
                  Energy(cols[0]) + Energy(cols[4]) + Energy(cols[6]),
                  Energy(cols[1]) + Energy(cols[5]) + Energy(cols[7]), e)
  }

  /** `detect_direction` on an already-read chunk. */
  function DetectDirection(chunk: AudioChunk, math: Math): (r: Result)
    requires IsSqrt(math)
    ensures r.Err? <==> LayoutFor(|ChannelColumns(chunk)|).None?
    ensures r.Err? ==> r.error == UnsupportedChannels(|ChannelColumns(chunk)|)
    ensures r.Ok? ==> 0.0 <= r.detection.intensity
  {
    var cols := ChannelColumns(chunk);
    match LayoutFor(|cols|)
    case None => Err(UnsupportedChannels(|cols|))
    case Some(layout) =>
      var raw := RegionSums(layout, cols);
      var x := raw.right - raw.left;
      var y := raw.front - raw.back;
      var magnitude := SqrtOfSquares(math, x, y);
      Ok(Detection(Mod360(math.atan2Degrees(y, x)), magnitude / (magnitude + Epsilon), raw))
  }

  // ---------------------------------------------------------------------------
  // The layout table, as an independent reference

  /** Which named channels feed which region, per layout. */
  function RegionChannels(layout: Layout, region: Region): seq<string>
  {
    match (layout, region)
    case (Stereo, Left) => ["FL"]
    case (Stereo, Right) => ["FR"]
    case (Stereo, Front) => ["FL", "FR"]
    case (Stereo, Back) => []
    case (Surround6, Left) => ["FL", "SL"]
    case (Surround6, Right) => ["FR", "SR"]
    case (Surround6, Front) => ["FL", "FR", "C"]
    case (Surround6, Back) => ["SL", "SR"]
    case (Surround8, Left) => ["FL", "SL", "RL"]
    case (Surround8, Right) => ["FR", "SR", "RR"]
    case (Surround8, Front) => ["FL", "FR", "C"]
    case (Surround8, Back) => ["SL", "SR"]
  }

  function SumOf(names: seq<string>, e: map<string, real>): real
    requires forall k :: 0 <= k < |names| ==> names[k] in e
  {
    if |names| == 0 then 0.0 else e[names[0]] + SumOf(names[1..], e)
  }

  function RegionEnergy(raw: RawEnergies, region: Region): real
  {
    match region
    case Front => raw.front
    case Back => raw.back
    case Left => raw.left
    case Right => raw.right
  }

  // ---------------------------------------------------------------------------
  // Properties

  /** The channel counts that have a layout: 2, 6 and every count from 8 on;
      0, 1, 3, 4, 5 and 7 columns are rejected with that count. */
  lemma AcceptedChannelCounts(cs: seq<seq<real>>, math: Math)
    requires IsSqrt(math)
    ensures DetectDirection(Columns(cs), math).Ok? <==> |cs| == 2 || |cs| == 6 || |cs| >= 8
    ensures DetectDirection(Columns(cs), math).Err? ==>
              DetectDirection(Columns(cs), math).error == UnsupportedChannels(|cs|)
  {
  }

  /** A mono chunk is the eight-column chunk of identical copies, which takes
      the eight-channel path and so has equal left and right energies. */
  lemma MonoIsEightIdenticalColumns(s: seq<real>, math: Math)
    requires IsSqrt(math)
    ensures DetectDirection(Mono(s), math) == DetectDirection(Columns(seq(8, _ => s)), math)
    ensures DetectDirection(Mono(s), math).Ok?
    ensures var raw := DetectDirection(Mono(s), math).detection.rawEnergies;
            raw.left == raw.right && raw.channels.Keys == {"FL", "FR", "C", "LFE", "SL", "SR", "RL", "RR"}
  {
    var cols := seq(8, _ => s);
    assert ChannelColumns(Mono(s)) == ChannelColumns(Columns(cols));
    assert LayoutFor(|cols|) == Some(Surround8);
    assert cols[0] == cols[1] == cols[4] == cols[5] == cols[6] == cols[7] == s;
    var raw := RegionSums(Surround8, cols);
    assert raw.left == raw.right;
  }

  /** Every per-channel energy and every region energy is non-negative. */
  lemma EnergiesNonNegative(chunk: AudioChunk, math: Math)
    requires IsSqrt(math)
    requires DetectDirection(chunk, math).Ok?
    ensures var raw := DetectDirection(chunk, math).detection.rawEnergies;
            && 0.0 <= raw.front && 0.0 <= raw.back && 0.0 <= raw.left && 0.0 <= raw.right
            && forall c :: c in raw.channels ==> 0.0 <= raw.channels[c]
  {
    var cols := ChannelColumns(chunk);
    var layout := LayoutFor(|cols|).value;
    var e := ChannelEnergies(layout, cols);
    ChannelKeys(layout, cols);
    forall c | c in e ensures 0.0 <= e[c] {
      var k :| 0 <= k < |ChannelNames(layout)| && ChannelNames(layout)[k] == c;
      ChannelEnergyAt(layout, cols, k);
    }
  }

  /** The dictionary has exactly the layout's channel names, each holding the
      energy of its column. */
  lemma ChannelEnergyAt(layout: Layout, cols: seq<seq<real>>, k: nat)
    requires |ChannelNames(layout)| <= |cols| && k < |ChannelNames(layout)|
    ensures ChannelNames(layout)[k] in ChannelEnergies(layout, cols)
    ensures ChannelEnergies(layout, cols)[ChannelNames(layout)[k]] == Energy(cols[k])
  {
  }

  lemma ChannelKeys(layout: Layout, cols: seq<seq<real>>)
    requires |ChannelNames(layout)| <= |cols|
    ensures forall c :: c in ChannelEnergies(layout, cols) <==> c in ChannelNames(layout)
  {
  }

  /** Every region sum is the sum of the channels the layout table assigns to
      that region. */
  lemma {:induction false} RegionsFollowTable(layout: Layout, cols: seq<seq<real>>, region: Region)
    requires |ChannelNames(layout)| <= |cols|
    ensures forall c :: c in RegionChannels(layout, region) ==> c in ChannelEnergies(layout, cols)
    ensures RegionEnergy(RegionSums(layout, cols), region)
            == SumOf(RegionChannels(layout, region), ChannelEnergies(layout, cols))
  {
    var e := ChannelEnergies(layout, cols);
    var names := RegionChannels(layout, region);
    assert forall k :: 0 <= k < |names| ==> names[k] in e;
    SumOfUnfolded(names, e);
  }

  /** The returned `raw_energies` holds the region sums of the chosen layout
      and that layout's per-channel dictionary, for which the table holds. */
  lemma DetectionReportsLayoutSums(chunk: AudioChunk, math: Math, region: Region)
    requires IsSqrt(math)
    requires DetectDirection(chunk, math).Ok?
    ensures var cols := ChannelColumns(chunk);
            var layout := LayoutFor(|cols|).value;
            var raw := DetectDirection(chunk, math).detection.rawEnergies;
            && raw.channels == ChannelEnergies(layout, cols)
            && (forall c :: c in raw.channels <==> c in ChannelNames(layout))
            && (forall c :: c in RegionChannels(layout, region) ==> c in raw.channels)
            && RegionEnergy(raw, region) == SumOf(RegionChannels(layout, region), raw.channels)
  {
    var cols := ChannelColumns(chunk);
    var layout := LayoutFor(|cols|).value;
    ChannelKeys(layout, cols);
    RegionsFollowTable(layout, cols, region);
  }

  /** A table entry of up to three channels sums term by term. */
  lemma SumOfUnfolded(names: seq<string>, e: map<string, real>)
    requires |names| <= 3 && forall k :: 0 <= k < |names| ==> names[k] in e
    ensures |names| == 0 ==> SumOf(names, e) == 0.0
    ensures |names| == 1 ==> SumOf(names, e) == e[names[0]]
    ensures |names| == 2 ==> SumOf(names, e) == e[names[0]] + e[names[1]]
    ensures |names| == 3 ==> SumOf(names, e) == e[names[0]] + e[names[1]] + e[names[2]]
  {
    if |names| > 0 {
      var t1 := names[1..];
      if |t1| > 0 {
        var t2 := t1[1..];
        assert SumOf(t2, e) == if |t2| == 0 then 0.0 else e[t2[0]] + SumOf(t2[1..], e);
      }
    }
  }

  /** The low-frequency channel feeds no region: changing it changes no
      region energy. */
  lemma LfeFeedsNoRegion(cs: seq<seq<real>>, lfe: seq<real>, math: Math)
    requires IsSqrt(math)
    requires |cs| == 6 || |cs| >= 8
    ensures var raw := DetectDirection(Columns(cs), math).detection.rawEnergies;
            var raw' := DetectDirection(Columns(cs[3 := lfe]), math).detection.rawEnergies;
            raw'.front == raw.front && raw'.back == raw.back && raw'.left == raw.left && raw'.right == raw.right
  {
  }

  /** Columns past the eighth are ignored altogether. */
  lemma ExtraColumnsIgnored(cs: seq<seq<real>>, math: Math)
    requires IsSqrt(math)
    requires |cs| >= 8
    ensures DetectDirection(Columns(cs), math) == DetectDirection(Columns(cs[..8]), math)
  {
  }

  /** The rear pair RL/RR feeds left and right but never back: a chunk whose
      only sound is in the rear pair has no front and no back energy. */
  lemma RearPairNeverBack(cs: seq<seq<real>>, math: Math)
    requires IsSqrt(math)
    requires |cs| >= 8
    requires forall k :: 0 <= k < 6 ==> Energy(cs[k]) == 0.0
    ensures var raw := DetectDirection(Columns(cs), math).detection.rawEnergies;
            raw.front == 0.0 && raw.back == 0.0
            && raw.left == Energy(cs[6]) && raw.right == Energy(cs[7])
  {
  }

  /** The intensity lies in [0, 1) and is zero exactly when the chunk is
      balanced: right equals left and front equals back. */
  lemma IntensityRange(chunk: AudioChunk, math: Math)
    requires IsSqrt(math)
    requires DetectDirection(chunk, math).Ok?
    ensures var d := DetectDirection(chunk, math).detection;
            && 0.0 <= d.intensity < 1.0
            && (d.intensity == 0.0 <==> d.rawEnergies.right == d.rawEnergies.left
                                        && d.rawEnergies.front == d.rawEnergies.back)
  {
    var cols := ChannelColumns(chunk);
    var raw := RegionSums(LayoutFor(|cols|).value, cols);
    var x := raw.right - raw.left;
    var y := raw.front - raw.back;
    BalancedIffZeroIntensity(x, y, SqrtOfSquares(math, x, y));
  }

  lemma BalancedIffZeroIntensity(x: real, y: real, m: real)
    requires 0.0 <= m && (m == 0.0 <==> x == 0.0 && y == 0.0)
    ensures 0.0 <= m / (m + Epsilon) < 1.0
    ensures m / (m + Epsilon) == 0.0 <==> x == 0.0 && y == 0.0
  {
    IntensityOfMagnitude(m);
  }

  lemma IntensityOfMagnitude(m: real)
    requires 0.0 <= m
    ensures 0.0 <= m / (m + Epsilon) < 1.0
    ensures m / (m + Epsilon) == 0.0 <==> m == 0.0
  {
    var i := m / (m + Epsilon);
    assert i * (m + Epsilon) == m;
  }

  /** The angle is always in [0, 360). */
  lemma AngleRange(chunk: AudioChunk, math: Math)
    requires IsSqrt(math)
    requires DetectDirection(chunk, math).Ok?
    ensures 0.0 <= DetectDirection(chunk, math).detection.angle < 360.0
  {
    var d := DetectDirection(chunk, math).detection;
    var raw := d.rawEnergies;
    Mod360Range(math.atan2Degrees(raw.front - raw.back, raw.right - raw.left));
  }

  lemma Mod360Range(a: real)
    ensures 0.0 <= Mod360(a) < 360.0
  {
    var q := a / 360.0;
    assert q.Floor as real <= q < q.Floor as real + 1.0;
    assert a == 360.0 * q;
  }
}
