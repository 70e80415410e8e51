/** Value types shared by the normalizer and the composers of nclcmaps.py:
    the raw catalogue of colour tables, normalized colours, caller selections
    and the outcome of a derivation call. */
module ColorTypes {

  /** A raw catalogue component: a non-negative integer (0..255 in the NCL
      tables, but no fixed maximum is assumed). */
  type Component = nat

  /** One stored colour of a table: red, green, blue. */
  type RawTriplet = (Component, Component, Component)

  /** A colour table as stored in the catalogue. */
  type Table = seq<RawTriplet>

  /** The `colors` dictionary: table name to table. It is immutable and is
      passed to every operation explicitly. */
  type Catalogue = map<string, Table>

  /** One row of a normalized palette. `NaN` is the row numpy produces when
      the normalization basis is 0: every component is then 0 / 0. */
  datatype Color = Rgb(r: real, g: real, b: real) | NaN

  /** A derived palette: the rows of the N x 3 array the source returns. */
  type Palette = seq<Color>

  /** The `indices` argument of `normalize`: omitted (`None`, the whole
      table) or a sequence of caller-facing indices. */
  datatype Selection = Whole | Picked(indices: seq<int>)

  datatype Option<T> = None | Some(value: T)

  /** Why a derivation call produced no palette. */
  datatype Fault =
      /** `colors[name][index - 2]` raised IndexError for this caller index. */
    | IndexOutOfRange(index: int)
      /** `np.max` of an empty selection raised ValueError. */
    | EmptySelection
      /** `normalize` returned `None` for this name and the caller passed it
          on to numpy or matplotlib, which raised. */
    | MissingTable(name: string)
      /** `indices[block]` raised IndexError: fewer selections than names. */
    | SelectionMissing(block: nat)
      /** `np.concatenate` of an empty list raised ValueError. */
    | NothingToConcatenate
      /** `cmapRange` without `finish` reads its local `colors` before
          assigning it and raises UnboundLocalError. */
    | FinishUnbound

  datatype Result<T> = Ok(value: T) | Err(fault: Fault)
}
