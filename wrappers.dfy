/** Optional values: the model's stand-in for TypeScript's optional properties
    (`image_uris?`, `card_faces?`, `mana_cost?`) and for `undefined` arguments. */
module Wrappers {

  datatype Option<+T> = None | Some(value: T)
}
