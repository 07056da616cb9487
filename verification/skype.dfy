/**
  The Skype notification: `send` logs in, resolves the contact, sends the
  text, keeps the sent time and logs out. Its result starts as the sentinel
  -1 and is overwritten with the sent time once the message went out, so an
  exception caught before that point leaves -1 and one caught at logout does
  not. The Skype client is a collaborator; what it does is an input.
 */
module Skype {
  import opened Wrappers

  /** The exceptions `send` catches. */
  datatype SkypeError = ParseError | InvalidCredentials | ConnectionError | ChatNotFound

  /** What the Skype client did. */
  datatype Delivery =
    | /** the message went out at `sentTime` and logout succeeded */
      Delivered(sentTime: Long)
    | /** login, the contact lookup or the send threw before a sent time was known */
      Raised(error: SkypeError)
    | /** the message went out at `sentTime`, then logout threw */
      RaisedAtLogout(sentTime: Long, error: SkypeError)

  /** The value `send` returns when the message could not be sent. */
  const Sentinel: Long := -1

  /** The value `send` returns. */
  function Send(d: Delivery): Long
  {
    match d
    case Raised(_) => Sentinel
    case Delivered(sentTime) => sentTime
    case RaisedAtLogout(sentTime, _) => sentTime
  }

  /** The caller reads the sentinel as failure. It is returned when the send
      threw, and also for a message Skype reports as sent at -1 ms; an
      exception at logout is not seen as a failure. */
  lemma SendFailsIff(d: Delivery)
    ensures Send(d) == Sentinel <==> d.Raised? || d.sentTime == Sentinel
    ensures d.RaisedAtLogout? ==> (Send(d) == Sentinel <==> d.sentTime == Sentinel)
  {
  }

  /** Once the message went out, `send` reports its sent time whether or not
      logout threw. */
  lemma SendReportsSentTime(d: Delivery)
    ensures !d.Raised? ==> Send(d) == d.sentTime
  {
  }
}
