/**
 * The messaging platform as the bot sees it: users, channels and messages as
 * plain records, and every call the bot makes to the platform (a message
 * sent, a channel created or deleted, a reply deferred) as an Event appended
 * to an outbound log. Timestamps are integer seconds since the Unix epoch.
 */
module Platform {

  datatype User = User(id: int, displayName: string, isBot: bool)

  datatype Attachment = Attachment(url: string)

  /** A guild channel; `isText` is false for voice channels, threads and the like. */
  datatype Channel = Channel(id: int, name: string, isText: bool)

  /**
   * A message in a channel's history. `components` lists the custom ids of
   * the children of each action row attached to the message.
   */
  datatype Message = Message(
    author: User,
    createdAt: int,
    content: string,
    attachments: seq<Attachment>,
    components: seq<seq<string>>)

  /** Who receives a message: a channel, a user's direct messages, or the invoking user's interaction. */
  datatype Target = ToChannel(channel: int) | ToUser(user: int) | ToInvoker

  /** The meaning of each message the bot sends; wording, colours and embeds are not modelled. */
  datatype Notice =
    | CooldownActive(remaining: int)
    | TicketWelcome(user: int, appChoices: seq<string>)
    | TicketCreated(channel: int)
    | CloseCountdown
    | TranscriptMetadata(channelName: string, opener: int, closer: int, openedAt: int, closedAt: int, duration: int)
    | TranscriptPart(number: nat, text: string)
    | NotATicketChannel
    | ForceClosePreparing(channel: int)
    | ForceCloseDone(channelName: string)
    | ProofReceived(user: int, appKey: string, screenshot: string)
    | UploadSuccessful
    | ScreenshotRequired(appKey: string)
    | NoPermission
    | AppNotFound
    | AccessGranted(user: int, appKey: string, link: string)
    | DirectMessagesDisabled
    | ServiceCompleted
    | ReviewVerified
    | VerificationDeclined(appKey: string)
    | ReviewDeclined
    | TicketPanel
    | CooldownCleared(user: int)
    | NoCooldownFound(user: int)
    | AppAdded(appKey: string, link: string)
    | AppMissing(appKey: string)
    | AppRemoved(appKey: string)
    | TicketOverview(count: nat, shown: seq<int>, more: nat)

  datatype Event =
    | Send(to: Target, notice: Notice)
    | Defer
    | CreateChannel(channel: int, name: string, owner: int)
    | DeleteChannel(channel: int)
    /** The review message in the verification channel is edited and loses its buttons. */
    | CloseReviewMessage(approved: bool)

  /** The outbound log: everything the bot has asked the platform to do, in order. */
  class Outbox {
    var events: seq<Event>

    constructor ()
      ensures events == []
    {
      events := [];
    }

    method Emit(e: Event)
      modifies this
      ensures events == old(events) + [e]
    {
      events := events + [e];
    }
  }
}
