/** Constants shared by the store and the word utilities (the module consts.py, which is not part of this model, defines them). */
module Consts {

  /** The marker that turns a word into its negation: "-cat" stands for the vector of "cat" negated. */
  const NegatingPrefix: char := '-'
}
