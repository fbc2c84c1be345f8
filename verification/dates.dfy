/** Instants, shared by the upload records and the event items. */
module Dates {

  /** An instant; only ever compared, copied or handed to a formatter. */
  type Date = int
}
