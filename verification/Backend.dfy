/** How a call to a database can end. */
module Backend {
  /** A write is acknowledged, lost, or takes effect although the caller is told it failed. */
  datatype Write = Acked | Lost | Unacked
}
