/**
 * Proof review: on_message spots a ticket participant naming a catalog app
 * and forwards their screenshot to the verification channel, where a
 * VerificationView waits for an administrator to verify or decline it.
 */
module Review {
  import opened Wrappers
  import opened Strings
  import opened Platform
  import opened Apps
  import opened Tickets

  // ---------------------------------------------------------------------
  // Detection (on_message)
  // ---------------------------------------------------------------------

  /** Key i is the first key of the list that occurs in the text. */
  predicate IsFirstMatch(keys: seq<string>, text: string, i: int)
  {
    0 <= i < |keys| && Contains(text, keys[i]) && forall j :: 0 <= j < i ==> !Contains(text, keys[j])
  }

  /** `next((key for key in keys if key in text), None)`, as the position of the key. */
  function FirstMatch(keys: seq<string>, text: string): (r: Option<nat>)
    ensures r.Some? ==> IsFirstMatch(keys, text, r.value)
    ensures r.None? ==> forall j :: 0 <= j < |keys| ==> !Contains(text, keys[j])
  {
    if keys == [] then None
    else if Contains(text, keys[0]) then Some(0)
    else match FirstMatch(keys[1..], text)
      case None => None
      case Some(i) => Some(i + 1)
  }

  /** The first match is unique: FirstMatch finds key i exactly when i is the first match. */
  lemma FirstMatchIff(keys: seq<string>, text: string, i: nat)
    ensures FirstMatch(keys, text) == Some(i) <==> IsFirstMatch(keys, text, i)
  {
  }

  /** What on_message does with one message. */
  datatype Detection =
    | Ignored                                      // a bot, or not a ticket channel
    | NoApp                                        // no catalog key is mentioned
    | Forward(key: string, screenshot: string)     // proof to the verification channel
    | AskForScreenshot(key: string)                // a key without an attachment

  function Detect(msg: Message, channel: Channel, catalog: seq<App>): Detection
  {
    if msg.author.isBot then Ignored
    else if !IsTicketChannelName(channel.name) then Ignored
    else
      var keys := Keys(catalog);
      match FirstMatch(keys, Lower(msg.content))
      case None => NoApp
      case Some(i) =>
        // An empty key matches every text but is falsy: nothing happens.
        if keys[i] == "" then NoApp
        else if msg.attachments != [] then Forward(keys[i], msg.attachments[0].url)
        else AskForScreenshot(keys[i])
  }

  /**
   * Bots and channels whose name does not start with "ticket-" are ignored;
   * a detected key is the first catalog key, in catalog order, contained in
   * the lower-cased content; with attachments the first attachment's URL is
   * forwarded, without any a screenshot is asked for.
   */
  lemma DetectRules(msg: Message, channel: Channel, catalog: seq<App>)
    ensures msg.author.isBot || !IsTicketChannelName(channel.name) ==> Detect(msg, channel, catalog) == Ignored
    ensures var d := Detect(msg, channel, catalog);
      (d.Forward? || d.AskForScreenshot?) ==>
        d.key != "" && exists i :: IsFirstMatch(Keys(catalog), Lower(msg.content), i) && Keys(catalog)[i] == d.key
    ensures var d := Detect(msg, channel, catalog);
      d.Forward? ==> msg.attachments != [] && d.screenshot == msg.attachments[0].url
    ensures var d := Detect(msg, channel, catalog);
      d.AskForScreenshot? ==> msg.attachments == []
  {
  }

  /** A non-empty key that is mentioned is never missed when every key is non-empty. */
  lemma DetectComplete(msg: Message, channel: Channel, catalog: seq<App>, k: nat)
    requires !msg.author.isBot && IsTicketChannelName(channel.name)
    requires forall j :: 0 <= j < |catalog| ==> catalog[j].key != ""
    requires k < |catalog| && Contains(Lower(msg.content), catalog[k].key)
    ensures Detect(msg, channel, catalog).Forward? || Detect(msg, channel, catalog).AskForScreenshot?
  {
    assert Keys(catalog)[k] == catalog[k].key;
  }

  /**
   * An app added with add_app is recognised however the user capitalises its
   * name: a message that contains the name in any ASCII case is acted on,
   * and with a screenshot attached it is forwarded for review.
   */
  lemma AddedAppDetected(catalog: seq<App>, name: string, link: string, msg: Message, channel: Channel, i: int)
    requires UniqueKeys(catalog)
    requires forall j :: 0 <= j < |catalog| ==> catalog[j].key != ""
    requires Lower(name) != ""
    requires !msg.author.isBot && IsTicketChannelName(channel.name)
    requires OccursAnyCase(msg.content, name, i)
    ensures var d := Detect(msg, channel, Put(catalog, Lower(name), link));
      (d.Forward? || d.AskForScreenshot?)
      && (msg.attachments != [] ==> d.Forward? && d.screenshot == msg.attachments[0].url)
  {
    var key := Lower(name);
    var after := Put(catalog, key, link);
    PutKeys(catalog, key, link);
    assert key in Keys(after);
    var k :| 0 <= k < |Keys(after)| && Keys(after)[k] == key;
    forall j | 0 <= j < |after| ensures after[j].key != "" {
      assert after[j].key == Keys(after)[j];
      if Keys(after)[j] != key {
        assert Keys(after)[j] in Keys(catalog);
        var m :| 0 <= m < |catalog| && Keys(catalog)[m] == Keys(after)[j];
        assert catalog[m].key == Keys(catalog)[m];
      }
    }
    LowerFindsAnyCase(msg.content, name, i);
    assert after[k].key == key;
    DetectComplete(msg, channel, after, k);
    DetectRules(msg, channel, after);
  }

  /** Who sent the proof, for which app, and where the review is reported back. */
  datatype Submission = Submission(ticketChannel: int, user: User, appKey: string, screenshot: string)

  /** The sends of on_message; `verification` is the verification channel. */
  function MessageEvents(msg: Message, channel: Channel, catalog: seq<App>, verification: int): seq<Event>
  {
    match Detect(msg, channel, catalog)
    case Forward(key, url) =>
      [Send(ToChannel(verification), ProofReceived(msg.author.id, key, url)),
       Send(ToChannel(channel.id), UploadSuccessful)]
    case AskForScreenshot(key) => [Send(ToChannel(channel.id), ScreenshotRequired(key))]
    case _ => []
  }

  /**
   * As written, a screenshot sent on its own, as the app dropdown's
   * instructions ask ("do not type any additional text"), names no catalog
   * key and is ignored: nothing is forwarded and nothing is replied.
   */
  lemma ScreenshotOnlyIgnored(user: User, at: int, shot: Attachment, channel: Channel,
                              catalog: seq<App>, verification: int)
    requires forall j :: 0 <= j < |catalog| ==> catalog[j].key != ""
    ensures MessageEvents(Message(user, at, "", [shot], []), channel, catalog, verification) == []
  {
    var keys := Keys(catalog);
    assert Lower("") == "";
    forall j | 0 <= j < |keys| ensures !Contains("", keys[j]) {
      assert keys[j] == catalog[j].key;
    }
  }

  /**
   * A screenshot sent together with the name of a catalog app, in any case,
   * is forwarded for review and acknowledged in the ticket.
   */
  lemma NamedScreenshotForwarded(msg: Message, channel: Channel, catalog: seq<App>, verification: int, k: nat, i: int)
    requires forall j :: 0 <= j < |catalog| ==> catalog[j].key != ""
    requires !msg.author.isBot && IsTicketChannelName(channel.name) && msg.attachments != []
    requires k < |catalog| && OccursAnyCase(msg.content, catalog[k].key, i) && Lower(catalog[k].key) == catalog[k].key
    ensures var es := MessageEvents(msg, channel, catalog, verification);
      |es| == 2 && es[0].Send? && es[0].to == ToChannel(verification)
      && es[0].notice.ProofReceived? && es[0].notice.user == msg.author.id
      && es[0].notice.screenshot == msg.attachments[0].url
      && es[1] == Send(ToChannel(channel.id), UploadSuccessful)
  {
    LowerFindsAnyCase(msg.content, catalog[k].key, i);
    DetectComplete(msg, channel, catalog, k);
    DetectRules(msg, channel, catalog);
  }

  /** on_message: the proof goes to the verification channel with a fresh review attached. */
  method OnMessage(msg: Message, channel: Channel, catalog: seq<App>, verification: int, out: Outbox)
    returns (view: VerificationView?)
    modifies out
    ensures out.events == old(out.events) + MessageEvents(msg, channel, catalog, verification)
    ensures view != null <==> Detect(msg, channel, catalog).Forward?
    ensures view != null ==> (fresh(view) && view.active && view.submission ==
      Submission(channel.id, msg.author, Detect(msg, channel, catalog).key, Detect(msg, channel, catalog).screenshot))
  {
    view := null;
    var d := Detect(msg, channel, catalog);
    match d
    case Forward(key, url) =>
      view := new VerificationView(Submission(channel.id, msg.author, key, url));
      out.Emit(Send(ToChannel(verification), ProofReceived(msg.author.id, key, url)));
      out.Emit(Send(ToChannel(channel.id), UploadSuccessful));
    case AskForScreenshot(key) =>
      out.Emit(Send(ToChannel(channel.id), ScreenshotRequired(key)));
    case _ =>
  }

  // ---------------------------------------------------------------------
  // Decisions (VerificationView)
  // ---------------------------------------------------------------------

  /** The link verify hands out: the catalog's current one; a missing or empty link is "not found". */
  function CurrentLink(catalog: seq<App>, key: string): Option<string>
  {
    match Lookup(catalog, key)
    case Some(link) => if link == "" then None else Some(link)
    case None => None
  }

  /**
   * verify pressed by someone with (`canManage`) or without the manage-guild
   * permission, with the catalog as it is now; `dmDelivered` is false when the
   * user's direct messages are closed to the bot.
   */
  function VerifyEvents(s: Submission, canManage: bool, catalog: seq<App>, dmDelivered: bool): seq<Event>
  {
    if !canManage then [Send(ToInvoker, NoPermission)]
    else match CurrentLink(catalog, s.appKey)
      case None => [Send(ToInvoker, AppNotFound)]
      case Some(link) =>
        var granted := AccessGranted(s.user.id, s.appKey, link);
        [Send(ToChannel(s.ticketChannel), granted)]
        + (if dmDelivered then [Send(ToUser(s.user.id), granted)]
           else [Send(ToChannel(s.ticketChannel), DirectMessagesDisabled)])
        + [Send(ToChannel(s.ticketChannel), ServiceCompleted),
           CloseReviewMessage(true),
           Send(ToInvoker, ReviewVerified)]
  }

  /** Whether a verify press settles the review and stops the view. */
  predicate VerifySettles(s: Submission, canManage: bool, catalog: seq<App>)
  {
    canManage && CurrentLink(catalog, s.appKey).Some?
  }

  function DeclineEvents(s: Submission, canManage: bool): seq<Event>
  {
    if !canManage then [Send(ToInvoker, NoPermission)]
    else [Send(ToChannel(s.ticketChannel), VerificationDeclined(s.appKey)),
          CloseReviewMessage(false),
          Send(ToInvoker, ReviewDeclined)]
  }

  /** Nothing reaches the ticket channel or the user unless the press came from an administrator. */
  lemma NoPermissionNoEffect(s: Submission, catalog: seq<App>, dmDelivered: bool)
    ensures VerifyEvents(s, false, catalog, dmDelivered) == [Send(ToInvoker, NoPermission)]
    ensures DeclineEvents(s, false) == [Send(ToInvoker, NoPermission)]
    ensures !VerifySettles(s, false, catalog)
  {
  }

  /** An app removed from the catalog before the decision is "not found"; nothing goes to the ticket. */
  lemma RemovedAppNotGranted(s: Submission, catalog: seq<App>, dmDelivered: bool)
    requires UniqueKeys(catalog)
    ensures VerifyEvents(s, true, Delete(catalog, s.appKey), dmDelivered) == [Send(ToInvoker, AppNotFound)]
    ensures !VerifySettles(s, true, Delete(catalog, s.appKey))
  {
    DeleteRemoves(catalog, s.appKey);
  }

  /**
   * A successful verify sends the link the catalog holds at decision time to
   * the ticket channel, then either the same message as a direct message or,
   * exactly when that is refused, a notice in the channel; then it offers
   * closure and closes the review message.
   */
  lemma VerifyGrants(s: Submission, catalog: seq<App>, dmDelivered: bool)
    requires VerifySettles(s, true, catalog)
    ensures var link := Lookup(catalog, s.appKey).value;
      var es := VerifyEvents(s, true, catalog, dmDelivered);
      var granted := AccessGranted(s.user.id, s.appKey, link);
      link != "" && App(s.appKey, link) in catalog
      && |es| == 5 && es[0] == Send(ToChannel(s.ticketChannel), granted)
      && (Send(ToUser(s.user.id), granted) in es <==> dmDelivered)
      && (Send(ToChannel(s.ticketChannel), DirectMessagesDisabled) in es <==> !dmDelivered)
      && es[2] == Send(ToChannel(s.ticketChannel), ServiceCompleted)
      && es[3] == CloseReviewMessage(true)
  {
  }

  /** An administrator's add_app between submission and decision changes the link handed out. */
  lemma VerifyUsesLatestLink(s: Submission, catalog: seq<App>, link: string, dmDelivered: bool)
    requires link != ""
    ensures VerifyEvents(s, true, Put(catalog, s.appKey, link), dmDelivered)[0]
      == Send(ToChannel(s.ticketChannel), AccessGranted(s.user.id, s.appKey, link))
  {
    PutLookup(catalog, s.appKey, link, s.appKey);
  }

  /** The review message posted in the verification channel, with its two buttons. */
  class VerificationView {
    const submission: Submission
    /** False once stop() has run: the buttons are gone and presses reach no handler. */
    var active: bool

    constructor (submission: Submission)
      ensures this.submission == submission && active
    {
      this.submission := submission;
      active := true;
    }

    /** The Verify button. */
    method Verify(canManage: bool, catalog: seq<App>, dmDelivered: bool, out: Outbox)
      modifies this, out
      ensures out.events == old(out.events) +
        if old(active) then VerifyEvents(submission, canManage, catalog, dmDelivered) else []
      ensures active == (old(active) && !VerifySettles(submission, canManage, catalog))
    {
      if !active {
        return;
      }
      if !canManage {
        out.Emit(Send(ToInvoker, NoPermission));
        return;
      }
      var link := Lookup(catalog, submission.appKey);
      if link.None? || link.value == "" {
        out.Emit(Send(ToInvoker, AppNotFound));
        return;
      }
      var granted := AccessGranted(submission.user.id, submission.appKey, link.value);
      out.Emit(Send(ToChannel(submission.ticketChannel), granted));
      if dmDelivered {
        out.Emit(Send(ToUser(submission.user.id), granted));
      } else {
        out.Emit(Send(ToChannel(submission.ticketChannel), DirectMessagesDisabled));
      }
      out.Emit(Send(ToChannel(submission.ticketChannel), ServiceCompleted));
      active := false;
      out.Emit(CloseReviewMessage(true));
      out.Emit(Send(ToInvoker, ReviewVerified));
    }

    /** The Decline button. */
    method Decline(canManage: bool, out: Outbox)
      modifies this, out
      ensures out.events == old(out.events) + if old(active) then DeclineEvents(submission, canManage) else []
      ensures active == (old(active) && !canManage)
    {
      if !active {
        return;
      }
      if !canManage {
        out.Emit(Send(ToInvoker, NoPermission));
        return;
      }
      out.Emit(Send(ToChannel(submission.ticketChannel), VerificationDeclined(submission.appKey)));
      active := false;
      out.Emit(CloseReviewMessage(false));
      out.Emit(Send(ToInvoker, ReviewDeclined));
    }
  }
}
