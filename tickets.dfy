/**
 * Ticket channels: opening one (create_new_ticket, with its cooldown and its
 * `ticket-<user id>` naming rule), closing one (CloseTicketView.close_ticket:
 * transcript to the log channel, then deletion), the administrative
 * force_close that runs the same closure on a named channel, and the
 * view_tickets filter over the guild's text channels.
 */
module Tickets {
  import opened Wrappers
  import opened Strings
  import opened Platform
  import opened Transcript
  import TranscriptLaws
  import opened Cooldowns
  import opened Apps

  const TicketPrefix := "ticket-"

  /** `name.startswith("ticket-")`: how every handler recognises a ticket channel. */
  predicate IsTicketChannelName(name: string)
  {
    TicketPrefix <= name
  }

  /** The name create_new_ticket gives the channel it opens for a user. */
  function TicketChannelName(user: int): string
  {
    TicketPrefix + IntToDecimal(user)
  }

  /**
   * A ticket channel's name carries its owner: it passes the ticket guard,
   * the owner's id reads back from it, and two users never share a name.
   */
  lemma TicketChannelNameRoundTrip(user: int, other: int)
    ensures IsTicketChannelName(TicketChannelName(user))
    ensures ParseInt(TicketChannelName(user)[|TicketPrefix|..]) == user
    ensures TicketChannelName(user) == TicketChannelName(other) <==> user == other
  {
    var name := TicketChannelName(user);
    assert name[|TicketPrefix|..] == IntToDecimal(user);
    IntRoundTrip(user);
    if name == TicketChannelName(other) {
      assert TicketChannelName(other)[|TicketPrefix|..] == IntToDecimal(other);
      IntToDecimalInjective(user, other);
    }
  }

  // ---------------------------------------------------------------------
  // Opening a ticket
  // ---------------------------------------------------------------------

  /**
   * What create_new_ticket does for `user` at `now`, given the dictionary of
   * cooldowns, the catalog the dropdown is built from and the id the platform
   * gives the new channel.
   */
  function OpenEvents(expiry: map<int, int>, catalog: seq<App>, user: User, now: int, channel: int): seq<Event>
  {
    match Wait(expiry, user.id, now)
    case Some(remaining) => [Send(ToInvoker, CooldownActive(remaining))]
    case None =>
      [Defer,
       CreateChannel(channel, TicketChannelName(user.id), user.id),
       Send(ToChannel(channel), TicketWelcome(user.id, Keys(catalog))),
       Send(ToInvoker, TicketCreated(channel))]
  }

  /** The ticket button and /ticket: shared opening logic. */
  method OpenTicket(reg: CooldownRegistry, catalog: seq<App>, user: User, now: int, channel: int, out: Outbox)
    modifies reg, out
    ensures out.events == old(out.events) + OpenEvents(old(reg.expiry), catalog, user, now, channel)
    ensures reg.expiry ==
      if Wait(old(reg.expiry), user.id, now).Some? then old(reg.expiry) else Started(old(reg.expiry), user.id, now)
  {
    var wait := reg.TryOpen(user.id, now);
    if wait.Some? {
      out.Emit(Send(ToInvoker, CooldownActive(wait.value)));
    } else {
      out.Emit(Defer);
      out.Emit(CreateChannel(channel, TicketChannelName(user.id), user.id));
      out.Emit(Send(ToChannel(channel), TicketWelcome(user.id, Keys(catalog))));
      out.Emit(Send(ToInvoker, TicketCreated(channel)));
    }
  }

  /**
   * A channel is created exactly when the user is outside their cooldown; it
   * is named after the user and the welcome offers the catalog's keys in
   * catalog order. Otherwise the only reply is the remaining wait.
   */
  lemma OpenCreatesIffFree(expiry: map<int, int>, catalog: seq<App>, user: User, now: int, channel: int)
    ensures var es := OpenEvents(expiry, catalog, user, now, channel);
      (CreateChannel(channel, TicketChannelName(user.id), user.id) in es <==> Wait(expiry, user.id, now) == None)
      && (Wait(expiry, user.id, now) == None ==>
            Send(ToChannel(channel), TicketWelcome(user.id, Keys(catalog))) in es)
      && (Wait(expiry, user.id, now) != None ==>
            es == [Send(ToInvoker, CooldownActive(expiry[user.id] - now))] && expiry[user.id] > now)
  {
  }

  /** A second ticket inside 48 hours of the first is refused with the rest of the window. */
  lemma ReopenWithinWindowRefused(expiry: map<int, int>, catalog: seq<App>, user: User,
                                  t1: int, t2: int, c1: int, c2: int)
    requires Wait(expiry, user.id, t1) == None && t1 <= t2 < t1 + CooldownSeconds
    ensures CreateChannel(c1, TicketChannelName(user.id), user.id) in OpenEvents(expiry, catalog, user, t1, c1)
    ensures OpenEvents(Started(expiry, user.id, t1), catalog, user, t2, c2) ==
      [Send(ToInvoker, CooldownActive(t1 + CooldownSeconds - t2))]
  {
    BlockedWithinWindow(expiry, user.id, t1, t2);
  }

  // ---------------------------------------------------------------------
  // Closing a ticket
  // ---------------------------------------------------------------------

  /** One log message per chunk, numbered from 1, in chunk order. */
  function PartEvents(log: int, chunks: seq<string>): seq<Event>
  {
    seq(|chunks|, i requires 0 <= i < |chunks| => Send(ToChannel(log), TranscriptPart(i + 1, chunks[i])))
  }

  /**
   * The "Ticket Opener" as the code computes it: the author of the oldest
   * message (`ms` is oldest first), or the closer when the channel is empty.
   */
  function OpenerAsWritten(closer: User, ms: seq<Message>): int
  {
    if ms == [] then closer.id else ms[0].author.id
  }

  /** The owner recorded in a channel name of the form `ticket-<id>`, if it has that form. */
  function TicketOwner(name: string): (r: Option<int>)
    ensures r.Some? ==> name == TicketChannelName(r.value)
  {
    if IsTicketChannelName(name) && TicketChannelName(ParseInt(name[|TicketPrefix|..])) == name
    then Some(ParseInt(name[|TicketPrefix|..]))
    else None
  }

  /** The channel create_new_ticket opens for a user records that user. */
  lemma TicketOwnerOfName(user: int)
    ensures TicketOwner(TicketChannelName(user)) == Some(user)
  {
    TicketChannelNameRoundTrip(user, user);
  }

  /**
   * The opener the log is meant to name: the user whose id the channel's
   * name carries; for any other `ticket-…` name, the code's choice.
   */
  function Opener(channel: Channel, closer: User, ms: seq<Message>): int
  {
    match TicketOwner(channel.name)
    case Some(owner) => owner
    case None => OpenerAsWritten(closer, ms)
  }

  /**
   * The sends of a closure naming `openedBy` as the opener, given the
   * history oldest first and its chunks. The opening time comes from the
   * oldest message, or is the closing time `now` when the channel is empty.
   */
  function ClosureSequence(channel: Channel, openedBy: int, closer: User, ms: seq<Message>, chunks: seq<string>, now: int, log: int): seq<Event>
  {
    var openedAt := if ms == [] then now else ms[0].createdAt;
    [Send(ToInvoker, CloseCountdown),
     Send(ToChannel(log), TranscriptMetadata(channel.name, openedBy, closer.id, openedAt, now, now - openedAt))]
    + PartEvents(log, chunks)
    + [DeleteChannel(channel.id)]
  }

  /**
   * close_ticket in `channel`, pressed by `closer` at `now`, with the
   * channel's history newest first and `log` the transcript log channel.
   */
  function ClosureEvents(channel: Channel, closer: User, history: seq<Message>, now: int, log: int): seq<Event>
  {
    var ms := Reversed(history);
    ClosureSequence(channel, OpenerAsWritten(closer, ms), closer, ms, Chunks(Blocks(ms)), now, log)
  }

  /** close_ticket with the opener corrected to the user the channel was opened for. */
  function ClosureEventsCorrected(channel: Channel, closer: User, history: seq<Message>, now: int, log: int): seq<Event>
  {
    var ms := Reversed(history);
    ClosureSequence(channel, Opener(channel, closer, ms), closer, ms, Chunks(Blocks(ms)), now, log)
  }

  method CloseTicket(channel: Channel, closer: User, history: seq<Message>, now: int, log: int, out: Outbox)
    modifies out
    ensures out.events == old(out.events) + ClosureEvents(channel, closer, history, now, log)
  {
    ghost var before := out.events;
    out.Emit(Send(ToInvoker, CloseCountdown));
    var chunks, messages := CreateTranscript(history);
    SendClosure(channel, closer, messages, chunks, now, log, out);
    ghost var rest := ClosureSequence(channel, OpenerAsWritten(closer, messages), closer, messages, chunks, now, log)[1..];
    AppendAssoc3(before, [Send(ToInvoker, CloseCountdown)], rest);
    ClosureEventsUnfold(channel, closer, history, messages, chunks, now, log);
  }

  lemma ClosureEventsUnfold(channel: Channel, closer: User, history: seq<Message>, ms: seq<Message>,
                            chunks: seq<string>, now: int, log: int)
    requires ms == Reversed(history) && chunks == Chunks(Blocks(ms))
    ensures ClosureEvents(channel, closer, history, now, log)
      == [Send(ToInvoker, CloseCountdown)] + ClosureSequence(channel, OpenerAsWritten(closer, ms), closer, ms, chunks, now, log)[1..]
  {
    var es := ClosureSequence(channel, OpenerAsWritten(closer, ms), closer, ms, chunks, now, log);
    assert es == [es[0]] + es[1..];
  }

  /** The sends of close_ticket after the countdown reply: metadata, parts, delete. */
  method SendClosure(channel: Channel, closer: User, ms: seq<Message>, chunks: seq<string>, now: int, log: int, out: Outbox)
    modifies out
    ensures out.events == old(out.events) + ClosureSequence(channel, OpenerAsWritten(closer, ms), closer, ms, chunks, now, log)[1..]
  {
    var openedBy := if ms == [] then closer.id else ms[0].author.id;
    var openedAt := if ms == [] then now else ms[0].createdAt;
    out.Emit(Send(ToChannel(log), TranscriptMetadata(channel.name, openedBy, closer.id, openedAt, now, now - openedAt)));
    ghost var start := out.events;
    for i := 0 to |chunks|
      invariant out.events == start + PartEvents(log, chunks[..i])
    {
      PartEventsSnoc(log, chunks, i);
      out.Emit(Send(ToChannel(log), TranscriptPart(i + 1, chunks[i])));
    }
    assert chunks[..|chunks|] == chunks;
    out.Emit(DeleteChannel(channel.id));
  }

  lemma PartEventsSnoc(log: int, chunks: seq<string>, i: nat)
    requires i < |chunks|
    ensures PartEvents(log, chunks[..i + 1]) == PartEvents(log, chunks[..i]) + [Send(ToChannel(log), TranscriptPart(i + 1, chunks[i]))]
  {
  }

  /**
   * The order of a closure: the metadata record, then parts 1..n carrying the
   * chunks in order, then the delete, which is the only delete and comes last.
   */
  lemma SequenceOrder(channel: Channel, openedBy: int, closer: User, ms: seq<Message>, chunks: seq<string>, now: int, log: int)
    ensures var es := ClosureSequence(channel, openedBy, closer, ms, chunks, now, log);
      |es| == |chunks| + 3
      && es[1].Send? && es[1].to == ToChannel(log) && es[1].notice.TranscriptMetadata?
      && (forall k :: 0 <= k < |chunks| ==> es[k + 2] == Send(ToChannel(log), TranscriptPart(k + 1, chunks[k])))
      && es[|es| - 1] == DeleteChannel(channel.id)
      && (forall k :: 0 <= k < |es| - 1 ==> !es[k].DeleteChannel?)
  {
    var es := ClosureSequence(channel, openedBy, closer, ms, chunks, now, log);
    forall k | 0 <= k < |es| - 1 ensures !es[k].DeleteChannel? {
      if k >= 2 { assert es[k] == PartEvents(log, chunks)[k - 2]; }
    }
  }

  lemma ClosureOrder(channel: Channel, closer: User, history: seq<Message>, now: int, log: int)
    ensures var es := ClosureEvents(channel, closer, history, now, log);
      var chunks := Chunks(Blocks(Reversed(history)));
      |es| == |chunks| + 3
      && es[1].Send? && es[1].to == ToChannel(log) && es[1].notice.TranscriptMetadata?
      && (forall k :: 0 <= k < |chunks| ==> es[k + 2] == Send(ToChannel(log), TranscriptPart(k + 1, chunks[k])))
      && es[|es| - 1] == DeleteChannel(channel.id)
      && (forall k :: 0 <= k < |es| - 1 ==> !es[k].DeleteChannel?)
  {
    var ms := Reversed(history);
    SequenceOrder(channel, OpenerAsWritten(closer, ms), closer, ms, Chunks(Blocks(ms)), now, log);
  }

  /**
   * The metadata names the channel and the closer. The opener and the
   * opening time are those of the oldest message (the last of the
   * newest-first history); an empty channel counts as opened by the closer
   * at the closing time. The duration is closing minus opening.
   */
  lemma ClosureMetadata(channel: Channel, closer: User, history: seq<Message>, now: int, log: int)
    ensures var md := ClosureEvents(channel, closer, history, now, log)[1].notice;
      md.TranscriptMetadata? && md.channelName == channel.name && md.closer == closer.id
      && md.closedAt == now && md.duration == md.closedAt - md.openedAt
      && md.opener == (if history == [] then closer.id else history[|history| - 1].author.id)
      && md.openedAt == (if history == [] then now else history[|history| - 1].createdAt)
  {
    var ms := Reversed(history);
    assert ClosureEvents(channel, closer, history, now, log)
      == ClosureSequence(channel, OpenerAsWritten(closer, ms), closer, ms, Chunks(Blocks(ms)), now, log);
    assert ms == [] <==> history == [];
  }

  /**
   * The corrected closure differs from close_ticket only in the opener its
   * metadata names: a channel named `ticket-<id>` names user <id>, and any
   * other channel keeps the code's choice.
   */
  lemma ClosureCorrectedNamesOwner(channel: Channel, closer: User, history: seq<Message>, now: int, log: int)
    ensures var fixed := ClosureEventsCorrected(channel, closer, history, now, log);
      var written := ClosureEvents(channel, closer, history, now, log);
      |fixed| == |written| && (forall k :: 0 <= k < |fixed| && k != 1 ==> fixed[k] == written[k])
      && fixed[1].Send? && fixed[1].to == written[1].to && fixed[1].notice.TranscriptMetadata?
      && fixed[1].notice == written[1].notice.(opener := fixed[1].notice.opener)
      && (forall owner :: channel.name == TicketChannelName(owner) ==> fixed[1].notice.opener == owner)
      && (TicketOwner(channel.name).None? ==> fixed == written)
  {
    var ms := Reversed(history);
    forall owner | channel.name == TicketChannelName(owner)
      ensures Opener(channel, closer, ms) == owner
    {
      TicketOwnerOfName(owner);
    }
  }

  /**
   * As written, the log of a ticket opened by create_new_ticket names the
   * bot as its opener: the channel's oldest message is the bot's welcome
   * post, and the code takes the oldest message's author. The corrected
   * opener is the user the channel was opened for.
   */
  lemma OpenerAsWrittenNamesBot(user: User, bot: User, closer: User, history: seq<Message>, channel: Channel,
                                 now: int, log: int)
    requires channel.name == TicketChannelName(user.id) && bot.id != user.id
    requires history != [] && history[|history| - 1].author == bot
    ensures OpenerAsWritten(closer, Reversed(history)) == bot.id
    ensures ClosureEvents(channel, closer, history, now, log)[1].notice.opener == bot.id != user.id
    ensures ClosureEventsCorrected(channel, closer, history, now, log)[1].notice.opener == user.id
  {
    ClosureMetadata(channel, closer, history, now, log);
    ClosureCorrectedNamesOwner(channel, closer, history, now, log);
  }

  /** The text of the transcript parts sent to `log`, in the order they were sent. */
  function LoggedText(es: seq<Event>, log: int): string
  {
    if es == [] then ""
    else
      var e := es[|es| - 1];
      LoggedText(es[..|es| - 1], log)
        + (if e.Send? && e.to == ToChannel(log) && e.notice.TranscriptPart? then e.notice.text else "")
  }

  lemma {:induction false} LoggedTextAppend(a: seq<Event>, b: seq<Event>, log: int)
    ensures LoggedText(a + b, log) == LoggedText(a, log) + LoggedText(b, log)
    decreases |b|
  {
    if b == [] {
      assert a + b == a;
    } else {
      var b' := b[..|b| - 1];
      assert (a + b)[..|a + b| - 1] == a + b';
      var e := b[|b| - 1];
      assert (a + b)[|a + b| - 1] == e;
      var t := if e.Send? && e.to == ToChannel(log) && e.notice.TranscriptPart? then e.notice.text else "";
      assert LoggedText(a + b, log) == LoggedText(a + b', log) + t;
      assert LoggedText(b, log) == LoggedText(b', log) + t;
      LoggedTextAppend(a, b', log);
    }
  }

  lemma {:induction false} LoggedParts(log: int, chunks: seq<string>)
    ensures LoggedText(PartEvents(log, chunks), log) == Concat(chunks)
    decreases |chunks|
  {
    if chunks != [] {
      var n := |chunks|;
      assert PartEvents(log, chunks)[..n - 1] == PartEvents(log, chunks[..n - 1]);
      LoggedParts(log, chunks[..n - 1]);
    }
  }

  /**
   * Nothing of the conversation is lost at closure: the parts sent to the log
   * spell out every message's block, oldest first, each followed by a blank line.
   */
  lemma SequenceLogsChunks(channel: Channel, openedBy: int, closer: User, ms: seq<Message>, chunks: seq<string>, now: int, log: int)
    ensures LoggedText(ClosureSequence(channel, openedBy, closer, ms, chunks, now, log), log) == Concat(chunks)
  {
    var es := ClosureSequence(channel, openedBy, closer, ms, chunks, now, log);
    var head := es[..2];
    var parts := PartEvents(log, chunks);
    var tail := [DeleteChannel(channel.id)];
    assert es == head + parts + tail;
    LoggedTextAppend(head + parts, tail, log);
    LoggedTextAppend(head, parts, log);
    assert LoggedText(head, log) == "" by {
      assert head[..1] == [head[0]] && [head[0]][..0] == [];
    }
    assert LoggedText(tail, log) == "" by {
      assert tail[..0] == [];
    }
    LoggedParts(log, chunks);
  }

  lemma ClosureLogsWholeHistory(channel: Channel, closer: User, history: seq<Message>, now: int, log: int)
    ensures LoggedText(ClosureEvents(channel, closer, history, now, log), log) == Join(Blocks(Reversed(history)))
  {
    var bs := Blocks(Reversed(history));
    var ms := Reversed(history);
    SequenceLogsChunks(channel, OpenerAsWritten(closer, ms), closer, ms, Chunks(bs), now, log);
    TranscriptLaws.TranscriptRoundTrip(bs);
  }

  // ---------------------------------------------------------------------
  // force_close
  // ---------------------------------------------------------------------

  /** The channel force_close acts on: the one given, or else the one it was invoked in. */
  function ForceTarget(given: Option<Channel>, invokedIn: Channel): Channel
  {
    if given.Some? then given.value else invokedIn
  }

  /** The guard of force_close: only text channels whose name starts with "ticket-". */
  predicate MayForceClose(target: Channel)
  {
    target.isText && IsTicketChannelName(target.name)
  }

  /**
   * force_close as its authors meant it: the guard, then the full closure of
   * the target (its countdown reply routed to the invoker's follow-up), then
   * a confirmation.
   */
  function ForceCloseEvents(given: Option<Channel>, invokedIn: Channel, invoker: User,
                            history: seq<Message>, now: int, log: int): seq<Event>
  {
    var target := ForceTarget(given, invokedIn);
    if !MayForceClose(target) then [Send(ToInvoker, NotATicketChannel)]
    else
      [Defer, Send(ToInvoker, ForceClosePreparing(target.id))]
      + ClosureEvents(target, invoker, history, now, log)
      + [Send(ToInvoker, ForceCloseDone(target.name))]
  }

  /**
   * force_close as written: the command ends right after the "preparing"
   * reply. Two faults stop it there. In discord.py 2.x a view's decorated
   * button method is replaced on the instance by its Button item, so
   * `view.close_ticket(...)` calls a Button and raises TypeError. Even if it
   * reached close_ticket, the stand-in interaction hands it the follow-up
   * webhook as its `response`, and close_ticket's first act is
   * `response.send_message`, which a webhook does not have (AttributeError).
   * The command's events are a prefix of the intended command's, and none
   * of them deletes anything.
   */
  function ForceCloseEventsAsWritten(given: Option<Channel>, invokedIn: Channel, invoker: User,
                                     history: seq<Message>, now: int, log: int): (r: seq<Event>)
    ensures r <= ForceCloseEvents(given, invokedIn, invoker, history, now, log)
    ensures forall e :: e in r ==> !e.DeleteChannel?
  {
    var target := ForceTarget(given, invokedIn);
    if !MayForceClose(target) then [Send(ToInvoker, NotATicketChannel)]
    else [Defer, Send(ToInvoker, ForceClosePreparing(target.id))]
  }

  method ForceClose(given: Option<Channel>, invokedIn: Channel, invoker: User,
                    history: seq<Message>, now: int, log: int, out: Outbox)
    modifies out
    ensures out.events == old(out.events) + ForceCloseEvents(given, invokedIn, invoker, history, now, log)
  {
    var target := if given.Some? then given.value else invokedIn;
    if !(target.isText && TicketPrefix <= target.name) {
      out.Emit(Send(ToInvoker, NotATicketChannel));
    } else {
      ghost var before := out.events;
      var head := [Defer, Send(ToInvoker, ForceClosePreparing(target.id))];
      out.Emit(head[0]);
      out.Emit(head[1]);
      assert out.events == before + head;
      CloseTicket(target, invoker, history, now, log, out);
      ghost var body := ClosureEvents(target, invoker, history, now, log);
      var tail := [Send(ToInvoker, ForceCloseDone(target.name))];
      out.Emit(tail[0]);
      AppendAssoc(before, head, body, tail);
      ForceCloseUnfold(given, invokedIn, invoker, history, now, log);
    }
  }

  lemma AppendAssoc3<T>(a: seq<T>, b: seq<T>, c: seq<T>)
    ensures a + b + c == a + (b + c)
  {
  }

  lemma AppendAssoc<T>(a: seq<T>, b: seq<T>, c: seq<T>, d: seq<T>)
    ensures a + b + c + d == a + (b + c + d)
  {
  }

  lemma ForceCloseUnfold(given: Option<Channel>, invokedIn: Channel, invoker: User,
                         history: seq<Message>, now: int, log: int)
    requires MayForceClose(ForceTarget(given, invokedIn))
    ensures var target := ForceTarget(given, invokedIn);
      ForceCloseEvents(given, invokedIn, invoker, history, now, log) ==
        [Defer, Send(ToInvoker, ForceClosePreparing(target.id))]
        + ClosureEvents(target, invoker, history, now, log)
        + [Send(ToInvoker, ForceCloseDone(target.name))]
  {
  }

  /**
   * The guard decides everything: a target that is not a ticket text channel
   * gets only the refusal and nothing is deleted; a ticket channel is deleted,
   * with its whole history logged first.
   */
  lemma ForceCloseGuard(given: Option<Channel>, invokedIn: Channel, invoker: User,
                        history: seq<Message>, now: int, log: int)
    ensures var target := ForceTarget(given, invokedIn);
      var es := ForceCloseEvents(given, invokedIn, invoker, history, now, log);
      (!MayForceClose(target) <==> es == [Send(ToInvoker, NotATicketChannel)])
      && (DeleteChannel(target.id) in es <==> MayForceClose(target))
      && (MayForceClose(target) ==> LoggedText(es, log) == Join(Blocks(Reversed(history))))
  {
    if MayForceClose(ForceTarget(given, invokedIn)) {
      ForceCloseAccepted(given, invokedIn, invoker, history, now, log);
    }
  }

  lemma ForceCloseAccepted(given: Option<Channel>, invokedIn: Channel, invoker: User,
                           history: seq<Message>, now: int, log: int)
    requires MayForceClose(ForceTarget(given, invokedIn))
    ensures var target := ForceTarget(given, invokedIn);
      var es := ForceCloseEvents(given, invokedIn, invoker, history, now, log);
      DeleteChannel(target.id) in es && LoggedText(es, log) == Join(Blocks(Reversed(history)))
  {
    var target := ForceTarget(given, invokedIn);
    var head := [Defer, Send(ToInvoker, ForceClosePreparing(target.id))];
    var body := ClosureEvents(target, invoker, history, now, log);
    var tail := [Send(ToInvoker, ForceCloseDone(target.name))];
    ForceCloseUnfold(given, invokedIn, invoker, history, now, log);
    ClosureOrder(target, invoker, history, now, log);
    assert DeleteChannel(target.id) in body by {
      assert body[|body| - 1] == DeleteChannel(target.id);
    }
    ClosureLogsWholeHistory(target, invoker, history, now, log);
    Framed(head, body, tail, log);
  }

  /** Replies to the invoker around a closure add nothing to the log. */
  lemma Framed(head: seq<Event>, body: seq<Event>, tail: seq<Event>, log: int)
    requires forall k :: 0 <= k < |head| ==> !head[k].Send? || head[k].to == ToInvoker
    requires forall k :: 0 <= k < |tail| ==> !tail[k].Send? || tail[k].to == ToInvoker
    ensures forall e :: e in body ==> e in head + body + tail
    ensures LoggedText(head + body + tail, log) == LoggedText(body, log)
  {
    LoggedTextAppend(head + body, tail, log);
    LoggedTextAppend(head, body, log);
    LoggedNothing(head, log);
    LoggedNothing(tail, log);
  }

  lemma {:induction false} LoggedNothing(es: seq<Event>, log: int)
    requires forall k :: 0 <= k < |es| ==> !es[k].Send? || es[k].to == ToInvoker
    ensures LoggedText(es, log) == ""
    decreases |es|
  {
    if es != [] {
      LoggedNothing(es[..|es| - 1], log);
    }
  }

  /**
   * The discrepancy: on any ticket channel the command as written deletes
   * nothing and logs nothing, where the intended one deletes the channel.
   */
  lemma ForceCloseAsWrittenKeepsChannel(given: Option<Channel>, invokedIn: Channel, invoker: User,
                                        history: seq<Message>, now: int, log: int)
    requires MayForceClose(ForceTarget(given, invokedIn))
    ensures var target := ForceTarget(given, invokedIn);
      var written := ForceCloseEventsAsWritten(given, invokedIn, invoker, history, now, log);
      (forall e :: e in written ==> !e.DeleteChannel? && (e.Send? ==> e.to == ToInvoker))
      && DeleteChannel(target.id) in ForceCloseEvents(given, invokedIn, invoker, history, now, log)
  {
    ForceCloseGuard(given, invokedIn, invoker, history, now, log);
  }

  // ---------------------------------------------------------------------
  // view_tickets
  // ---------------------------------------------------------------------

  predicate IsOpenTicket(c: Channel)
  {
    c.isText && IsTicketChannelName(c.name)
  }

  /** The guild's text channels whose name starts with "ticket-", in guild order. */
  function OpenTickets(channels: seq<Channel>): (r: seq<Channel>)
    ensures |r| <= |channels|
    ensures forall c :: c in r <==> c in channels && IsOpenTicket(c)
  {
    if channels == [] then []
    else
      var rest := OpenTickets(channels[..|channels| - 1]);
      var c := channels[|channels| - 1];
      assert channels == channels[..|channels| - 1] + [c];
      if IsOpenTicket(c) then rest + [c] else rest
  }

  /** The filter keeps the order: filtering a concatenation concatenates the filtered parts. */
  lemma {:induction false} OpenTicketsAppend(a: seq<Channel>, b: seq<Channel>)
    ensures OpenTickets(a + b) == OpenTickets(a) + OpenTickets(b)
    decreases |b|
  {
    if b == [] {
      assert a + b == a;
    } else {
      var b' := b[..|b| - 1];
      assert (a + b)[..|a + b| - 1] == a + b';
      assert (a + b)[|a + b| - 1] == b[|b| - 1];
      OpenTicketsAppend(a, b');
    }
  }

  /** Every channel opened for a user is counted by view_tickets. */
  lemma CreatedTicketIsListed(user: int, channel: int, before: seq<Channel>, after: seq<Channel>)
    ensures Channel(channel, TicketChannelName(user), true) in OpenTickets(before + [Channel(channel, TicketChannelName(user), true)] + after)
  {
    TicketChannelNameRoundTrip(user, user);
  }

  const OverviewLimit := 20

  function Ids(cs: seq<Channel>): seq<int>
  {
    seq(|cs|, i requires 0 <= i < |cs| => cs[i].id)
  }

  /** The overview: the count, the first 20 open tickets, and how many more there are. */
  function Overview(channels: seq<Channel>): Notice
  {
    var open := OpenTickets(channels);
    var shown := if |open| > OverviewLimit then open[..OverviewLimit] else open;
    TicketOverview(|open|, Ids(shown), |open| - |shown|)
  }

  /** The overview lists at most 20 tickets, in order, and accounts for every open ticket. */
  lemma OverviewAccounts(channels: seq<Channel>)
    ensures var o := Overview(channels);
      var open := OpenTickets(channels);
      o.count == |open| && |o.shown| <= OverviewLimit && |o.shown| + o.more == o.count
      && (forall k :: 0 <= k < |o.shown| ==> o.shown[k] == open[k].id)
      && (o.more > 0 <==> |open| > OverviewLimit)
  {
  }

  method ViewTickets(channels: seq<Channel>, out: Outbox)
    modifies out
    ensures out.events == old(out.events) + [Send(ToInvoker, Overview(channels))]
  {
    out.Emit(Send(ToInvoker, Overview(channels)));
  }
}
