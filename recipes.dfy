/** The corpus records. */
module Recipes {

  datatype Option<+T> = None | Some(value: T)

  /** One record of a chunk file: `{id, cuisine, ingredients, embedding}`. */
  datatype Recipe = Recipe(id: int, cuisine: string, ingredients: seq<string>, embedding: seq<real>)
}
