/**
 * The places where the compiler as written departs from what it evidently
 * intends are modelled twice: once as the code reads, once corrected.
 */
module Revisions {
  /** Which reading of such a place an operation follows. */
  datatype Revision = AsWritten | Fixed
}
