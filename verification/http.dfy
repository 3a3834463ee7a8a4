/** What a handler sends back: the status code, the JSON body, the effect on
    the refresh cookie, and the store after the handler ran. */
module Http {
  import opened Values
  import opened Models
  import opened Db
  import opened Tokens

  /** Response bodies, up to their human-readable message strings. */
  datatype Body =
    | Note                                   // only a `message` string
    | NoContent                              // `sendStatus(204)`
    | EdgeBody(edge: Friendship)
    | EdgeList(edges: seq<Friendship>)
    | IdSet(ids: set<Id>)
    | MessageBody(message: Message)
    | MessageList(messages: seq<Message>)
    | Details(id: Id, user: User, messages: seq<Message>, friends: set<Id>)
    | Saved(user: User)                      // the saved document, digest included
    | Session(accessToken: Token, id: Id, email: string)
    | AccessOnly(accessToken: Token)

  datatype Step = Step(status: int, body: Body, cookie: CookieOp, store: Store)

  /** A response that leaves the cookie alone. */
  function Reply(status: int, body: Body, s: Store): Step {
    Step(status, body, Keep, s)
  }
}
