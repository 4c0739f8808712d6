/** The steno data model aliases (drill/types/stroke.py) and Plover's key names. */
module StenoTypes {

  /** Text produced by an outline. */
  type Translation = string

  /** One stroke in Plover's steno notation, such as "STKPW" or "-FR". */
  type StrokeText = string

  /** A series of strokes performed in succession. */
  type Outline = seq<StrokeText>

  /**
   * A key name as Plover's `Stroke.keys()` yields it: "S-" for a left-bank
   * key, "-T" for a right-bank key, "*" or "#" for the others. Never empty.
   */
  type Key = k: string | |k| > 0 witness "*"
}
