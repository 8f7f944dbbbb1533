/** What every route handler returns: the store after the request, the reply, and the mail it delivered. */
module Handler {
  import opened Wrappers
  import opened Database
  import opened Http
  import opened Email

  datatype Reply = Reply(store: Store, response: Response, mail: Option<Mail>)

  /** A reply that changes nothing and sends no mail. */
  function Answer(st: Store, response: Response): (r: Reply)
    ensures r.store == st && r.response == response && r.mail.None?
  {
    Reply(st, response, None)
  }
}
