/** The integers that sequences and versions range over: positive, and exact in every JSON reader. */
module SequenceNumbers {

  const MAX_SEQUENCE := 9007199254740991

  predicate PositiveInt(value: int) {
    1 <= value <= MAX_SEQUENCE
  }
}
