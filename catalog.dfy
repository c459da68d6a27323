/**
 * A catalog row as the recommender reads it back from the crawler's CSV
 * file. pandas reads an empty cell as a missing value (NaN), so the
 * description and the K/P type hint may be missing; the name and the URL
 * never are, because the crawler keeps only rows with both.
 */
module Catalog {
  import opened Wrappers

  datatype Item = Item(name: string, url: string, desc: Option<string>, typeHint: Option<string>)

  /** `str(cell)`: a missing cell prints as "nan". */
  function CellText(c: Option<string>): string {
    c.GetOr("nan")
  }

  /** `fillna("")`: a missing cell becomes the empty string. */
  function FillEmpty(c: Option<string>): string {
    c.GetOr("")
  }
}
