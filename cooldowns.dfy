/**
 * The per-user ticket cooldown. The bot keeps one in-memory dictionary
 * from user id to the instant (in seconds) until which that user may not
 * open another ticket; opening a ticket sets it 48 hours ahead and the
 * remove_cooldown command deletes it.
 */
module Cooldowns {
  import opened Wrappers
  import opened Platform

  /** The fixed cooldown: 48 hours, in seconds. */
  const CooldownSeconds: int := 48 * 60 * 60

  /**
   * How long `user` still has to wait at `now`, or None when they may open
   * a ticket. An entry that has run out (expiry <= now) does not block.
   */
  function Wait(expiry: map<int, int>, user: int, now: int): Option<int>
  {
    if user in expiry && expiry[user] > now then Some(expiry[user] - now) else None
  }

  /** The dictionary after `user` opened a ticket at `now`. */
  function Started(expiry: map<int, int>, user: int, now: int): map<int, int>
  {
    expiry[user := now + CooldownSeconds]
  }

  /** A wait, when there is one, is positive and ends exactly at the stored expiry. */
  lemma WaitIsPositive(expiry: map<int, int>, user: int, now: int)
    ensures Wait(expiry, user, now).Some? <==> user in expiry && expiry[user] > now
    ensures Wait(expiry, user, now).Some? ==>
      Wait(expiry, user, now).value > 0 && now + Wait(expiry, user, now).value == expiry[user]
  {
  }

  /** After opening at t1, a second attempt within 48 hours waits for the rest of the window. */
  lemma BlockedWithinWindow(expiry: map<int, int>, user: int, t1: int, t2: int)
    requires t1 <= t2 < t1 + CooldownSeconds
    ensures Wait(Started(expiry, user, t1), user, t2) == Some(t1 + CooldownSeconds - t2)
    ensures 0 < t1 + CooldownSeconds - t2 <= CooldownSeconds
  {
  }

  /** From the expiry instant on (expiry == now included) the user may open again. */
  lemma FreeAfterWindow(expiry: map<int, int>, user: int, t1: int, t2: int)
    requires t2 >= t1 + CooldownSeconds
    ensures Wait(Started(expiry, user, t1), user, t2) == None
  {
  }

  /** Starting or clearing one user's cooldown does not change anybody else's. */
  lemma OthersUnaffected(expiry: map<int, int>, user: int, other: int, t: int, now: int)
    requires other != user
    ensures Wait(Started(expiry, user, t), other, now) == Wait(expiry, other, now)
    ensures Wait(expiry - {user}, other, now) == Wait(expiry, other, now)
  {
  }

  /** A user whose cooldown was cleared may open a ticket at once. */
  lemma ClearedIsFree(expiry: map<int, int>, user: int, now: int)
    ensures Wait(expiry - {user}, user, now) == None
  {
  }

  /** The module-level `cooldowns` dictionary. */
  class CooldownRegistry {
    var expiry: map<int, int>

    constructor ()
      ensures expiry == map[]
    {
      expiry := map[];
    }

    /**
     * The cooldown part of create_new_ticket: a user still inside the
     * window is told how long to wait and the dictionary is left alone;
     * anyone else gets a new 48-hour entry and no other entry changes.
     */
    method TryOpen(user: int, now: int) returns (wait: Option<int>)
      modifies this
      ensures wait == Wait(old(expiry), user, now)
      ensures wait.Some? ==> expiry == old(expiry)
      ensures wait.None? ==> expiry == Started(old(expiry), user, now)
    {
      if user in expiry && expiry[user] > now {
        wait := Some(expiry[user] - now);
      } else {
        wait := None;
        expiry := expiry[user := now + CooldownSeconds];
      }
    }

    /**
     * The remove_cooldown command: deletes that user's entry when there is
     * one, and reports which case occurred. Removing twice is removing once.
     */
    method Remove(user: int, out: Outbox) returns (removed: bool)
      modifies this, out
      ensures removed <==> user in old(expiry)
      ensures expiry == old(expiry) - {user}
      ensures !removed ==> expiry == old(expiry)
      ensures out.events == old(out.events) +
        [Send(ToInvoker, if removed then CooldownCleared(user) else NoCooldownFound(user))]
    {
      removed := user in expiry;
      if removed {
        expiry := expiry - {user};
        out.Emit(Send(ToInvoker, CooldownCleared(user)));
      } else {
        out.Emit(Send(ToInvoker, NoCooldownFound(user)));
      }
    }
  }
}
