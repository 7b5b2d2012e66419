/** The nullable values of the scraper: a JavaScript `string | null` (or a
    missing property) is `None` or `Some(s)`. */
module Wrappers {

  datatype Option<+T> = None | Some(value: T)

}
