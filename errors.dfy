/** The Python exception kinds raised by the modelled code, with the reason each is raised. */
module Errors {

  datatype Reason =
    | NotOneDimensional     // a vector given to the Jaccard functions is not 1-d
    | LengthMismatch        // the two vectors differ in shape
    | NotBoolean            // a vector is not of boolean dtype
    | TupleConcat           // `str + tuple` when extending a flat index
    | MultipleLevels        // grouping a flat index by a list of levels
    | DuplicateLevelName    // a level name that occurs more than once
    | LevelCountMismatch    // a level order whose length differs from the number of levels
    | AmbiguousTruth        // the truth value of an array with more than one element
    | NoObjects             // concatenating an empty list of frames
    | OutOfBounds           // positional column access beyond the last column
    | NoData                // the data folder produced no frame
    | NoToList              // `to_list` asked of a DataFrame, which only a Series has

  datatype Exception =
    | IndexError(reason: Reason)
    | TypeError(reason: Reason)
    | KeyError(key: string)
    | ValueError(reason: Reason)
    | RuntimeError(reason: Reason)
    | AssertionError(reason: Reason)
    | AttributeError(reason: Reason)
}
