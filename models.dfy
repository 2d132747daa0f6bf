/** The rows the core reads: recipes and stores as the database returns them.
    The JSON columns become insertion-ordered dictionaries. */
module Models {
  import opened OrderedDicts

  datatype Option<T> = None | Some(value: T)

  /** An ingredient amount as stored in a recipe's JSON: either a JSON string,
      or any other JSON value, carried with the text Python's `str()` gives
      it (what an f-string inserts). */
  datatype Amount = Text(s: string) | Other(shown: string)
  {
    /** The text an f-string shows for this amount. */
    function Show(): string
    {
      match this
      case Text(s) => s
      case Other(shown) => shown
    }
  }

  datatype Recipe = Recipe(id: int, name: string, ingredients: Dict<string, Amount>, instructions: string)

  datatype Store = Store(
    id: int,
    name: string,
    prices: Dict<string, real>,
    address: string,
    zipCode: string,
    latitude: Option<real>,
    longitude: Option<real>)
}
