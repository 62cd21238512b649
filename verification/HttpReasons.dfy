// The reason phrases: the table of them, and the phrase looked up for any status.
module HttpReasons {
  import opened HttpHeader

  /** An entry of the table. */
  datatype Reason = Reason(status: int, phrase: string)

  const EARLY: seq<Reason> := [
    Reason(100, "Continue"),
    Reason(101, "Web Socket Protocol Handshake"),
    Reason(200, "OK"),
    Reason(201, "Created"),
    Reason(206, "Partial Content"),
    Reason(250, "Low on Storage Space")
  ]

  const REDIRECTION: seq<Reason> := [
    Reason(300, "Multiple Choices"),
    Reason(301, "Moved Permanently"),
    Reason(302, "Moved Temporarily"),
    Reason(303, "See Other"),
    Reason(304, "Not Modified"),
    Reason(305, "Use Proxy")
  ]

  const REFUSAL: seq<Reason> := [
    Reason(400, "Bad Request"),
    Reason(401, "Unauthorized"),
    Reason(402, "Payment Required"),
    Reason(403, "Forbidden"),
    Reason(404, "Not Found"),
    Reason(405, "Method Not Allowed"),
    Reason(406, "Not Acceptable"),
    Reason(407, "Proxy Authentication Required")
  ]

  const REQUEST: seq<Reason> := [
    Reason(408, "Request Time-out"),
    Reason(410, "Gone"),
    Reason(411, "Length Required")
  ]

  const CONTENT: seq<Reason> := [
    Reason(412, "Precondition Failed"),
    Reason(413, "Request Entity Too Large"),
    Reason(414, "Request-URI Too Large"),
    Reason(415, "Unsupported Media Type")
  ]

  const SESSION: seq<Reason> := [
    Reason(451, "Parameter Not Understood"),
    Reason(452, "Conference Not Found"),
    Reason(453, "Not Enough Bandwidth"),
    Reason(454, "Session Not Found"),
    Reason(455, "Method Not Valid in This State"),
    Reason(456, "Header Field Not Valid for Resource"),
    Reason(457, "Invalid Range")
  ]

  const AGGREGATE: seq<Reason> := [
    Reason(458, "Parameter Is Read-Only"),
    Reason(459, "Aggregate operation not allowed"),
    Reason(460, "Only aggregate operation allowed"),
    Reason(461, "Unsupported transport"),
    Reason(462, "Destination unreachable"),
    Reason(480, "Temporarity Not Available")
  ]

  const SERVER: seq<Reason> := [
    Reason(500, "Internal Server Error"),
    Reason(501, "Not Implemented"),
    Reason(502, "Bad Gateway"),
    Reason(503, "Service Unavailable"),
    Reason(504, "Gateway Time-out"),
    Reason(505, "RTSP Version not supported"),
    Reason(551, "Option not supported")
  ]

  /** The entries of the table are what is looked up for their status. */
  predicate Listed(table: seq<Reason>) {
    forall i :: 0 <= i < |table| ==> StatusMessage(table[i].status) == table[i].phrase
  }

  lemma EarlyPhrases()
    ensures Listed(EARLY)
  {
  }

  lemma RedirectionPhrases()
    ensures Listed(REDIRECTION)
  {
  }

  lemma RefusalPhrases()
    ensures Listed(REFUSAL)
  {
  }

  lemma RequestPhrases()
    ensures Listed(REQUEST)
  {
  }

  lemma ContentPhrases()
    ensures Listed(CONTENT)
  {
  }

  lemma SessionPhrases()
    ensures Listed(SESSION)
  {
  }

  lemma AggregatePhrases()
    ensures Listed(AGGREGATE)
  {
  }

  lemma ServerPhrases()
    ensures Listed(SERVER)
  {
  }

  /** Every status of the table has its phrase ... */
  lemma EveryPhrase()
    ensures Listed(EARLY) && Listed(REDIRECTION) && Listed(REFUSAL) && Listed(REQUEST)
    ensures Listed(CONTENT) && Listed(SESSION) && Listed(AGGREGATE) && Listed(SERVER)
  {
    hide Listed;
    EarlyPhrases();
    RedirectionPhrases();
    RefusalPhrases();
    RequestPhrases();
    ContentPhrases();
    SessionPhrases();
    AggregatePhrases();
    ServerPhrases();
  }

  const STATUSES: set<int> := {
    100, 101, 200, 201, 206, 250, 300, 301, 302, 303, 304, 305, 400, 401, 402, 403,
    404, 405, 406, 407, 408, 410, 411, 412, 413, 414, 415, 451, 452, 453, 454, 455,
    456, 457, 458, 459, 460, 461, 462, 480, 500, 501, 502, 503, 504, 505, 551
  }

  /** ... and every other status has none. */
  lemma OtherStatus(status: int)
    requires status !in STATUSES
    ensures StatusMessage(status) == "Undefined"
  {
  }
}
