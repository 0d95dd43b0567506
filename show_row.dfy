/**
 * A row of the `shows` table as the dashboard and the show list read it.
 * Only the columns those views compute with are kept; the others (show
 * type, coordinates, hospitality, notes, ...) are displayed and nothing
 * more.
 */
module Shows {
  import opened Wrappers
  import opened JsNumber

  /** The two artists the agency books. */
  datatype Artist = JEYF | ELGUDI

  /** A numeric column: `None` is SQL `null` (or a column the query did not
      select), otherwise the JavaScript number it arrived as. */
  type Amount = Option<Number>

  datatype ShowRow = ShowRow(
    id: string,
    artist: Option<Artist>,
    showDate: Option<string>,      // "YYYY-MM-DD"
    eventName: Option<string>,
    venueName: Option<string>,
    addressText: Option<string>,
    kmDistance: Amount,
    showCost: Amount,
    advancePaid: Amount,
    viaticosCobrados: Amount)

  /** The three money columns. */
  datatype MoneyField = ShowCost | AdvancePaid | Viaticos

  function MoneyAmount(r: ShowRow, field: MoneyField): Amount {
    match field
    case ShowCost => r.showCost
    case AdvancePaid => r.advancePaid
    case Viaticos => r.viaticosCobrados
  }
}
