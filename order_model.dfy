/** The values the order form holds: one order line and the whole form. */
module OrderModel {

  /** The quantity cell is a number input read with `valueAsNumber`: any
      number, or NaN when the box is empty or unparsable. */
  datatype Quantity = Num(value: real) | NaN

  /** The `image` field of a line: `null` for a row created by the
      "add item" button, a list of encoded images otherwise. */
  datatype ImageField = NoImages | Images(list: seq<string>)

  datatype Item = Item(
    productName: string,
    unit: string,
    quantity: Quantity,
    status: string,
    image: ImageField)

  datatype Form = Form(companyId: string, receivedDate: string, items: seq<Item>)

  /** The list the line's image editor is given: `image || []`. */
  function DisplayedImages(image: ImageField): seq<string>
  {
    match image
    case NoImages => []
    case Images(list) => list
  }
}
