/** The parts of an HttpServletRequest and of a response that the core reads
    or writes. A header the client did not send is `None` (getHeader's null). */
module Http {
  import opened Wrappers

  datatype Request = Request(
    xForwardedFor: Option<string>,  // X-Forwarded-For
    xRealIp: Option<string>,        // X-Real-IP
    userAgent: Option<string>,      // User-Agent
    referer: Option<string>,        // Referer
    remoteAddr: string,             // getRemoteAddr()
    requestUri: string)             // getRequestURI()

  datatype Header = Header(name: string, value: string)

  const StatusOk: nat := 200                // section 15.3.1 of RFC 9110
  const StatusMovedPermanently: nat := 301  // section 15.4.2 of RFC 9110
  const StatusNotFound: nat := 404          // section 15.5.5 of RFC 9110
  const StatusTooManyRequests: nat := 429   // section 4 of RFC 6585
}
