/**
 The values the pipeline moves around: JSON scalars decoded from the
 air-pollution endpoint and the coordinates read from the city table.
 */
module Values {

  datatype Option<T> = None | Some(value: T)

  /** A floating-point number as the upstream API or the city table carries
      it. The model only copies such numbers, so their text stands for them. */
  datatype Float = Float(literal: string)

  /** A JSON scalar as Python's `json` module decodes it. */
  datatype Json = JStr(s: string) | JInt(i: int) | JNum(f: Float)
}
