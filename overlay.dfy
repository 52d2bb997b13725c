/** src/overlay/overlay.py: the overlay window polls the direction file and
    moves a red dot on a 400x400 canvas to the reported angle and intensity.
    The file's contents (or the failure to open it), the JSON decoder and
    the cosine and sine of an angle in degrees are given by the caller; the
    Tk window itself is not modelled, only the stored dot and whether the
    polling goes on. */
module Overlay {
  import opened Text
  import opened Direction

  /** A decoded JSON value; only numbers and booleans can place the dot. */
  datatype Json =
    | JNull
    | JBool(b: bool)
    | JNumber(n: real)
    | JString(s: string)
    | JArray(items: seq<Json>)
    | JObject(fields: map<string, Json>)

  /** `json.loads` on text that looks like an object: the decoded object, or
      `None` where it raises. */
  type Decoder = string -> Option<map<string, Json>>

  /** `read_json`: `file` is the text read from the path, `None` when opening
      or reading fails. Blank text, text that does not start with "{" and end
      with "}" after stripping, and text the decoder refuses all give `None`. */
  function ReadJson(file: Option<string>, decode: Decoder): (r: Option<map<string, Json>>)
    ensures file.None? ==> r.None?
    ensures r.Some? ==> r == decode(Strip(file.value))
  {
    if file.None? then None
    else
      var raw := Strip(file.value);
      if raw == "" then None
      else if raw[0] != '{' || raw[|raw| - 1] != '}' then None
      else decode(raw)
  }

  /** `read_json` hands the decoder the stripped text exactly when that text
      is a non-empty `{...}`, and returns `None` otherwise. */
  lemma ReadJsonGuard(file: Option<string>, decode: Decoder)
    ensures file.Some? ==>
              var raw := Strip(file.value);
              |raw| >= 2 && raw[0] == '{' && raw[|raw| - 1] == '}' ==> ReadJson(file, decode) == decode(raw)
    ensures ReadJson(file, decode).Some? ==>
              && file.Some?
              && !AllSpace(file.value)
              && Strip(file.value)[0] == '{' && Strip(file.value)[|Strip(file.value)| - 1] == '}'
  {
    if file.Some? {
      StripEmptyIffAllSpace(file.value);
    }
  }

  /** A text that is only whitespace reads as `None`. */
  lemma BlankReadsNone(text: string, decode: Decoder)
    requires AllSpace(text)
    ensures ReadJson(Some(text), decode) == None
  {
    StripEmptyIffAllSpace(text);
  }

  /** What `math.radians` and the arithmetic of `draw_dot` accept: a number,
      or a boolean counting as 1 or 0. Anything else raises `TypeError`. */
  function AsNumber(j: Json): (r: Option<real>)
    ensures r.Some? <==> j.JNumber? || j.JBool?
    ensures j.JNumber? ==> r == Some(j.n)
    ensures j.JBool? ==> r == Some(if j.b then 1.0 else 0.0)
  {
    match j
    case JNumber(n) => Some(n)
    case JBool(b) => Some(if b then 1.0 else 0.0)
    case _ => None
  }

  /** `data.get(key, 0)` */
  function Get(data: map<string, Json>, key: string): Json
  {
    if key in data then data[key] else JNumber(0.0)
  }

  /** `math.cos(math.radians(a))` and `math.sin(math.radians(a))`. */
  datatype Trig = Trig(cosDeg: real -> real, sinDeg: real -> real)

  /** Cosine and sine stay within [-1, 1]. */
  ghost predicate IsBounded(trig: Trig)
  {
    forall a :: -1.0 <= trig.cosDeg(a) <= 1.0 && -1.0 <= trig.sinDeg(a) <= 1.0
  }

  /** A canvas oval's bounding box `(x0, y0, x1, y1)`. */
  datatype Box = Box(x0: real, y0: real, x1: real, y1: real)

  /** The outer circle's radius and the canvas centre. */
  const Radius: real := 200.0
  const CentreX: real := 200.0
  const CentreY: real := 200.0

  /** Half the dot's width. */
  const DotHalf: real := 5.0

  /** Where `_create_ui_elements` first puts the dot. */
  const InitialDot: Box := Box(195.0, 195.0, 205.0, 205.0)

  /** `draw_dot`: the dot is centred `radius * intensity` from the canvas
      centre in the direction of `angle` (the canvas y axis points down). */
  function DotBox(angle: real, intensity: real, trig: Trig): (b: Box)
    ensures b.x1 - b.x0 == 2.0 * DotHalf && b.y1 - b.y0 == 2.0 * DotHalf
    ensures (b.x0 + b.x1) / 2.0 == CentreX + Mul(Mul(Radius, intensity), trig.cosDeg(angle))
    ensures (b.y0 + b.y1) / 2.0 == CentreY - Mul(Mul(Radius, intensity), trig.sinDeg(angle))
  {
    var inner := Mul(Radius, intensity);
    var x := CentreX + Mul(inner, trig.cosDeg(angle));
    var y := CentreY - Mul(inner, trig.sinDeg(angle));
    Box(x - DotHalf, y - DotHalf, x + DotHalf, y + DotHalf)
  }

  /** The dot and the polling flag after one `update_overlay`. */
  datatype View = View(dot: Box, polling: bool)

  /** One `update_overlay`: no data keeps the dot; otherwise the dot is
      drawn at the angle and intensity read with default 0, unless one of
      them is not a number, which raises before the dot moves so that the
      next poll is never scheduled. */
  function Update(dot: Box, data: Option<map<string, Json>>, trig: Trig): (v: View)
    ensures data.None? ==> v == View(dot, true)
    ensures v.dot == dot || (v.dot.x1 - v.dot.x0 == 2.0 * DotHalf && v.dot.y1 - v.dot.y0 == 2.0 * DotHalf)
    ensures !v.polling ==> data.Some? && v.dot == dot
    ensures data.Some? ==>
              (v.polling <==> AsNumber(Get(data.value, "angle")).Some? && AsNumber(Get(data.value, "intensity")).Some?)
    ensures data.Some? && v.polling ==>
              v.dot == DotBox(AsNumber(Get(data.value, "angle")).value,
                              AsNumber(Get(data.value, "intensity")).value, trig)
  {
    if data.None? then View(dot, true)
    else
      var angle := AsNumber(Get(data.value, "angle"));
      var intensity := AsNumber(Get(data.value, "intensity"));
      if angle.None? || intensity.None? then View(dot, false)
      else View(DotBox(angle.value, intensity.value, trig), true)
  }

  /** With no intensity (or intensity 0) the dot sits on the centre, where
      it starts, whatever the angle. */
  lemma ZeroIntensityCentres(data: map<string, Json>, trig: Trig)
    requires AsNumber(Get(data, "angle")).Some?
    requires "intensity" !in data || data["intensity"] == JNumber(0.0) || data["intensity"] == JBool(false)
    ensures Update(InitialDot, Some(data), trig) == View(InitialDot, true)
    ensures forall dot :: Update(dot, Some(data), trig) == View(InitialDot, true)
  {
  }

  /** With `0 <= intensity <= 1` the dot's centre stays inside the outer
      circle's bounding square, so the dot never leaves the 400x400 canvas
      by more than its own half width. */
  lemma DotWithinCanvas(angle: real, intensity: real, trig: Trig)
    requires IsBounded(trig) && 0.0 <= intensity <= 1.0
    ensures var b := DotBox(angle, intensity, trig);
            && 0.0 <= b.x0 + DotHalf <= 2.0 * Radius
            && 0.0 <= b.y0 + DotHalf <= 2.0 * Radius
  {
    var inner := Mul(Radius, intensity);
    assert 0.0 <= inner <= Radius;
    ScaledWithin(inner, trig.cosDeg(angle));
    ScaledWithin(inner, trig.sinDeg(angle));
  }

  /** A detection written by the direction estimator always places the dot
      on the canvas: its intensity lies in [0, 1). */
  lemma DetectedDotWithinCanvas(chunk: AudioChunk, math: Math, trig: Trig)
    requires IsSqrt(math) && IsBounded(trig)
    requires DetectDirection(chunk, math).Ok?
    ensures var d := DetectDirection(chunk, math).detection;
            var b := DotBox(d.angle, d.intensity, trig);
            && 0.0 <= b.x0 + DotHalf <= 2.0 * Radius
            && 0.0 <= b.y0 + DotHalf <= 2.0 * Radius
  {
    var d := DetectDirection(chunk, math).detection;
    IntensityRange(chunk, math);
    DotWithinCanvas(d.angle, d.intensity, trig);
  }

  /** `|inner * c| <= inner` when `-1 <= c <= 1`. */
  lemma ScaledWithin(inner: real, c: real)
    requires 0.0 <= inner && -1.0 <= c <= 1.0
    ensures -inner <= Mul(inner, c) <= inner
  {
    assert inner - Mul(inner, c) == Mul(inner, 1.0 - c);
    assert inner + Mul(inner, c) == Mul(inner, 1.0 + c);
    NonNegativeProduct(inner, 1.0 - c);
    NonNegativeProduct(inner, 1.0 + c);
  }

  lemma NonNegativeProduct(a: real, b: real)
    requires 0.0 <= a && 0.0 <= b
    ensures 0.0 <= Mul(a, b)
  {
  }

  /** The overlay window: the dot's bounding box on the canvas and whether
      `update_overlay` is still rescheduled every 50 ms. */
  class OverlayWindow {
    var dot: Box
    var polling: bool

    /** The dot is always a 10x10 box. */
    ghost predicate Valid()
      reads this
    {
      dot.x1 - dot.x0 == 2.0 * DotHalf && dot.y1 - dot.y0 == 2.0 * DotHalf
    }

    /** `__init__`: the dot starts at the centre and the first
        `update_overlay` runs at once. */
    constructor (file: Option<string>, decode: Decoder, trig: Trig)
      ensures Valid()
      ensures View(dot, polling) == Update(InitialDot, ReadJson(file, decode), trig)
    {
      dot := InitialDot;
      polling := true;
      new;
      UpdateOverlay(file, decode, trig);
    }

    /** `update_overlay`: read the file and redraw the dot when the data
        allows it. */
    method UpdateOverlay(file: Option<string>, decode: Decoder, trig: Trig)
      requires Valid() && polling
      modifies this
      ensures Valid()
      ensures View(dot, polling) == Update(old(dot), ReadJson(file, decode), trig)
    {
      var data := ReadJson(file, decode);
      if data.Some? {
        var angle := AsNumber(Get(data.value, "angle"));
        var intensity := AsNumber(Get(data.value, "intensity"));
        if angle.None? || intensity.None? {
          polling := false;
          return;
        }
        dot := DotBox(angle.value, intensity.value, trig);
      }
    }
  }
}
