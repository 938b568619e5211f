/**
 * The record shapes shared by the views: a matched component as the result
 * list and the exporters hold it, and a row read from an uploaded bill of
 * materials.
 */
module Types {

  /**
   * One result row of the result list. `selected` is optional in the source's
   * record type; an absent flag behaves as false everywhere it is read, so it
   * is a plain boolean here.
   */
  datatype ComponentResult = ComponentResult(
    id: string,
    productNumber: string,
    competitor: string,
    category: string,
    alternative: string,
    selected: bool)

  /** One row of an uploaded spreadsheet, offered for selection before a search. */
  datatype ExcelRowData = ExcelRowData(
    id: string,
    partNumber: string,
    description: string,
    quantity: int,
    manufacturer: string,
    selected: bool)

  /** What an intake workflow submits for matching. */
  datatype SearchQuery =
    | ExcelQuery(selectedItems: seq<ExcelRowData>)
    | ManualQuery(productNumber: string, includeAlternatives: bool)
    | CameraQuery(imageData: string)
}
