/** The RGBA colour of PyMath/color.py: four integer channels, each clamped
    into [0, 255] when the colour is built.
 */
module Colors {
  import opened Wrappers

  datatype Color = Color(r: int, g: int, b: int, a: int)

  /** `color[index]` on the rgba tuple raises IndexError out of range. */
  datatype ColorError = IndexError

  /** `max(min(v, 255), 0)`. */
  function ClampChannel(v: int): (c: int)
    ensures 0 <= c <= 255
    ensures 0 <= v <= 255 ==> c == v
    ensures v < 0 ==> c == 0
    ensures v > 255 ==> c == 255
  {
    var low := if v < 255 then v else 255;
    if low > 0 then low else 0
  }

  predicate InRange(v: int) {
    0 <= v <= 255
  }

  /** `Color(r, g, b, a)`: every channel clamped into [0, 255]; a channel
      already in range is kept. */
  function NewColor(r: int, g: int, b: int, a: int): (c: Color)
    ensures InRange(c.r) && InRange(c.g) && InRange(c.b) && InRange(c.a)
    ensures InRange(r) ==> c.r == r
    ensures InRange(g) ==> c.g == g
    ensures InRange(b) ==> c.b == b
    ensures InRange(a) ==> c.a == a
  {
    Color(ClampChannel(r), ClampChannel(g), ClampChannel(b), ClampChannel(a))
  }

  /** `Color(r, g, b)`: alpha takes its default of 255. */
  function Opaque(r: int, g: int, b: int): (c: Color)
    ensures c.a == 255
    ensures InRange(r) && InRange(g) && InRange(b) ==> Rgba(c) == (r, g, b, 255)
  {
    NewColor(r, g, b, 255)
  }

  /** `color.rgba`: the channels in r, g, b, a order. Passing them back to
      the constructor rebuilds a colour whose channels are in range, as every
      built colour's are; indexing reads the same tuple. */
  function Rgba(c: Color): (t: (int, int, int, int))
    ensures InRange(c.r) && InRange(c.g) && InRange(c.b) && InRange(c.a) ==> NewColor(t.0, t.1, t.2, t.3) == c
    ensures Channel(c, 0) == Success(t.0) && Channel(c, -1) == Success(t.3)
  {
    (c.r, c.g, c.b, c.a)
  }

  /** Clamping a colour's channels again changes nothing. */
  lemma ClampIsIdempotent(r: int, g: int, b: int, a: int)
    ensures var c := NewColor(r, g, b, a);
            NewColor(c.r, c.g, c.b, c.a) == c
  {
  }

  /** `color[index]`: Python tuple indexing, where -1 is the last channel. */
  function Channel(c: Color, index: int): (v: Result<int, ColorError>)
    ensures v.Success? <==> -4 <= index < 4
    ensures v.Success? ==> v.value == [c.r, c.g, c.b, c.a][if index < 0 then index + 4 else index]
  {
    var channels := [c.r, c.g, c.b, c.a];
    if 0 <= index < 4 then Success(channels[index])
    else if -4 <= index < 0 then Success(channels[index + 4])
    else Failure(IndexError)
  }

  /** Indexing agrees with `rgba` and with the attributes, from either end. */
  lemma ChannelMatchesRgba(c: Color)
    ensures Channel(c, 0) == Success(Rgba(c).0) == Success(c.r)
    ensures Channel(c, 1) == Success(Rgba(c).1) == Success(c.g)
    ensures Channel(c, 2) == Success(Rgba(c).2) == Success(c.b)
    ensures Channel(c, 3) == Success(Rgba(c).3) == Success(c.a)
    ensures forall i :: -4 <= i < 0 ==> Channel(c, i) == Channel(c, i + 4)
  {
  }

  /** A built colour's channels all lie in [0, 255], so indexing never
      returns a value outside it. */
  lemma ChannelInRange(r: int, g: int, b: int, a: int, index: int)
    ensures Channel(NewColor(r, g, b, a), index).Success? ==>
              InRange(Channel(NewColor(r, g, b, a), index).value)
  {
  }

  /** `Color.red`. */
  function Red(): (c: Color)
    ensures Rgba(c) == (255, 0, 0, 255)
  {
    Opaque(255, 0, 0)
  }

  /** `Color.green`. */
  function Green(): (c: Color)
    ensures Rgba(c) == (0, 255, 0, 255)
  {
    Opaque(0, 255, 0)
  }

  /** `Color.blue`. */
  function Blue(): (c: Color)
    ensures Rgba(c) == (0, 0, 255, 255)
  {
    Opaque(0, 0, 255)
  }

  /** `Color.black`. */
  function Black(): (c: Color)
    ensures Rgba(c) == (0, 0, 0, 255)
  {
    Opaque(0, 0, 0)
  }

  /** `Color.white`. */
  function White(): (c: Color)
    ensures Rgba(c) == (255, 255, 255, 255)
  {
    Opaque(255, 255, 255)
  }

  /** `Color.transparent`: white with alpha 0. */
  function Transparent(): (c: Color)
    ensures Rgba(c) == (255, 255, 255, 0)
  {
    NewColor(255, 255, 255, 0)
  }
}
