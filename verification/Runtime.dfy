/** Errors that decide what a worker does next. */
module Runtime {
  datatype Error =
    | IoNfq
    | IoVsock
    | IoIpv4Tcp
    | IoIpv4Udp
    | GlycerineRuntime
    | Reopening   // the error with which opening a resource was given up
}
