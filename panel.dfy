/**
 * The ticket panel at start-up (setup_ticket_panel): look through the five
 * most recent messages of the panel channel for the bot's own message
 * carrying the "Create New Ticket" button, and post a new panel only when
 * none is found, so that restarts do not pile up panels.
 */
module Panel {
  import opened Platform

  /** The custom id of the persistent "Create New Ticket" button. */
  const PanelButtonId := "persistent_create_ticket_button"

  /** `channel.history(limit=5)`. */
  const ScanLimit := 5

  /** The recent messages the scan looks at, newest first. */
  function Window(history: seq<Message>): (w: seq<Message>)
    ensures |w| <= ScanLimit && w <= history
  {
    if |history| <= ScanLimit then history else history[..ScanLimit]
  }

  /** How the scan judges one message. */
  datatype Verdict =
    | PanelMessage      // the bot's message whose first row starts with the panel button
    | OtherMessage
    | Raises            // the bot's message with an empty first row: `children[0]` raises IndexError

  function Judge(m: Message, botId: int): Verdict
  {
    if m.author.id == botId && m.components != [] then
      if m.components[0] == [] then Raises
      else if m.components[0][0] == PanelButtonId then PanelMessage
      else OtherMessage
    else OtherMessage
  }

  datatype Scan = Found | Absent | Failed

  /** The outcome of scanning messages in order: the first message that is not OtherMessage decides. */
  function ScanFrom(ms: seq<Message>, botId: int): Scan
  {
    if ms == [] then Absent
    else match Judge(ms[0], botId)
      case PanelMessage => Found
      case Raises => Failed
      case OtherMessage => ScanFrom(ms[1..], botId)
  }

  /** The scan finds a panel exactly when a panel comes before anything that raises; it finds none exactly when all messages are ordinary. */
  lemma {:induction false} ScanFromIff(ms: seq<Message>, botId: int)
    ensures ScanFrom(ms, botId) == Found <==>
      exists i :: 0 <= i < |ms| && Judge(ms[i], botId) == PanelMessage
        && forall j :: 0 <= j < i ==> Judge(ms[j], botId) == OtherMessage
    ensures ScanFrom(ms, botId) == Absent <==> forall j :: 0 <= j < |ms| ==> Judge(ms[j], botId) == OtherMessage
    decreases |ms|
  {
    if ms != [] {
      ScanFromIff(ms[1..], botId);
      if Judge(ms[0], botId) == OtherMessage {
        if ScanFrom(ms, botId) == Found {
          var i :| 0 <= i < |ms[1..]| && Judge(ms[1..][i], botId) == PanelMessage
            && forall j :: 0 <= j < i ==> Judge(ms[1..][j], botId) == OtherMessage;
          assert Judge(ms[i + 1], botId) == PanelMessage;
          assert forall j :: 0 <= j < i + 1 ==> Judge(ms[j], botId) == OtherMessage by {
            forall j | 0 <= j < i + 1 ensures Judge(ms[j], botId) == OtherMessage {
              if j > 0 { assert ms[j] == ms[1..][j - 1]; }
            }
          }
        } else {
          forall i | 0 <= i < |ms| && Judge(ms[i], botId) == PanelMessage
            ensures exists j :: 0 <= j < i && Judge(ms[j], botId) != OtherMessage
          {
            assert i > 0 && ms[i] == ms[1..][i - 1];
            var j :| 0 <= j < i - 1 && Judge(ms[1..][j], botId) != OtherMessage;
            assert ms[j + 1] == ms[1..][j];
          }
        }
        if ScanFrom(ms, botId) != Absent {
          var j :| 0 <= j < |ms[1..]| && Judge(ms[1..][j], botId) != OtherMessage;
          assert ms[j + 1] == ms[1..][j];
        } else {
          forall j | 0 <= j < |ms| ensures Judge(ms[j], botId) == OtherMessage {
            if j > 0 { assert ms[j] == ms[1..][j - 1]; }
          }
        }
      }
    }
  }

  /** The scan loop of setup_ticket_panel, with its found flag and its early exit. */
  method FindPanel(history: seq<Message>, botId: int) returns (r: Scan)
    ensures r == ScanFrom(Window(history), botId)
  {
    var w := Window(history);
    var found := false;
    var i := 0;
    while i < |w|
      invariant 0 <= i <= |w|
      invariant !found
      invariant ScanFrom(w[i..], botId) == ScanFrom(w, botId)
    {
      var m := w[i];
      assert w[i..][1..] == w[i + 1..];
      if m.author.id == botId && m.components != [] {
        if m.components[0] == [] {
          // the IndexError is caught by the handler's generic `except`
          return Failed;
        }
        if m.components[0][0] == PanelButtonId {
          found := true;
          break;
        }
      }
      i := i + 1;
    }
    r := if found then Found else Absent;
  }

  /**
   * The sends of setup_ticket_panel. `panelChannel` is the configured id (0
   * when not configured) and `resolved` says whether the bot could see that
   * channel.
   */
  function SetupEvents(panelChannel: int, resolved: bool, history: seq<Message>, botId: int): seq<Event>
  {
    if panelChannel == 0 || !resolved then []
    else if ScanFrom(Window(history), botId) == Absent then [Send(ToChannel(panelChannel), TicketPanel)]
    else []
  }

  method SetupTicketPanel(panelChannel: int, resolved: bool, history: seq<Message>, botId: int, out: Outbox)
    modifies out
    ensures out.events == old(out.events) + SetupEvents(panelChannel, resolved, history, botId)
  {
    if panelChannel == 0 || !resolved {
      return;
    }
    var scan := FindPanel(history, botId);
    if scan == Absent {
      out.Emit(Send(ToChannel(panelChannel), TicketPanel));
    }
  }

  /**
   * A new panel is posted exactly when a configured, visible panel channel has
   * no bot panel message among its five newest messages (and none of them
   * makes the button lookup raise).
   */
  lemma PanelSentIff(panelChannel: int, resolved: bool, history: seq<Message>, botId: int)
    ensures SetupEvents(panelChannel, resolved, history, botId) != [] <==>
      panelChannel != 0 && resolved &&
      forall j :: 0 <= j < |Window(history)| ==> Judge(Window(history)[j], botId) == OtherMessage
    ensures SetupEvents(panelChannel, resolved, history, botId) != [] ==>
      SetupEvents(panelChannel, resolved, history, botId) == [Send(ToChannel(panelChannel), TicketPanel)]
  {
    ScanFromIff(Window(history), botId);
  }

  /** The message the bot posts as the panel. */
  function PanelPost(bot: User, at: int): Message
  {
    Message(bot, at, "", [], [[PanelButtonId]])
  }

  /** Idempotence: once a panel has been posted, the next start-up finds it and posts nothing. */
  lemma SetupIdempotent(panelChannel: int, history: seq<Message>, bot: User, at: int)
    ensures SetupEvents(panelChannel, true, [PanelPost(bot, at)] + history, bot.id) == []
  {
    var h := [PanelPost(bot, at)] + history;
    assert Window(h)[0] == PanelPost(bot, at);
  }

  /** Only five messages are looked at: a panel pushed further back by other messages is not seen. */
  lemma PanelOutsideWindowMissed(panelChannel: int, recent: seq<Message>, bot: User, at: int, older: seq<Message>)
    requires panelChannel != 0 && |recent| == ScanLimit
    requires forall j :: 0 <= j < |recent| ==> recent[j].author.id != bot.id
    ensures SetupEvents(panelChannel, true, recent + [PanelPost(bot, at)] + older, bot.id)
      == [Send(ToChannel(panelChannel), TicketPanel)]
  {
    var h := recent + [PanelPost(bot, at)] + older;
    assert Window(h) == recent;
    PanelSentIff(panelChannel, true, h, bot.id);
  }
}
