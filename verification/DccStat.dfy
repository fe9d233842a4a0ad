/** enum dcc_state, shared by the models of dcc.c. */
module DccStat {
  datatype Stat = Queued | Active | Failed | Done | Connecting | Aborted
}
