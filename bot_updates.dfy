/**
 * The polling side shared by both Telegram bots: a batch of updates from
 * `getUpdates`, each handled in turn, with the offset for the next request
 * moved past every update handled.
 */
module BotUpdates {
  import opened Wrappers

  /** `update["message"]`: the chat it came from and its text, when it has one. */
  datatype Message = Message(chatId: int, text: Option<string>)

  datatype Update = Update(updateId: int, message: Option<Message>)

  /** The offset after a batch: one past the id of its last update, or unchanged when it is empty. */
  function NextOffset(offset: Option<int>, updates: seq<Update>): Option<int> {
    if updates == [] then offset else Some(updates[|updates| - 1].updateId + 1)
  }

  /** Two batches in turn move the offset as far as the one batch holding both. */
  lemma NextOffsetAppend(offset: Option<int>, a: seq<Update>, b: seq<Update>)
    ensures NextOffset(NextOffset(offset, a), b) == NextOffset(offset, a + b)
  {
    if b != [] {
      assert (a + b)[|a + b| - 1] == b[|b| - 1];
    } else {
      assert a + b == a;
    }
  }

  /** The actions of a batch: those of each update, in order. */
  function BatchActions<A>(handle: Update -> seq<A>, updates: seq<Update>): seq<A> {
    if updates == [] then []
    else BatchActions(handle, updates[..|updates| - 1]) + handle(updates[|updates| - 1])
  }

  /** The actions of two batches in turn are those of the batch holding both. */
  lemma {:induction false} BatchActionsAppend<A>(handle: Update -> seq<A>, a: seq<Update>, b: seq<Update>)
    ensures BatchActions(handle, a + b) == BatchActions(handle, a) + BatchActions(handle, b)
    decreases |b|
  {
    if b == [] {
      assert a + b == a;
    } else {
      var init := b[..|b| - 1];
      BatchActionsAppend(handle, a, init);
      assert (a + b)[..|a + b| - 1] == a + init;
    }
  }

  /** An update's actions appear in the batch's actions, after those of the updates before it. */
  lemma UpdateActionsInBatch<A>(handle: Update -> seq<A>, updates: seq<Update>, i: nat)
    requires i < |updates|
    ensures BatchActions(handle, updates[..i + 1]) == BatchActions(handle, updates[..i]) + handle(updates[i])
  {
    assert updates[..i + 1][..i] == updates[..i];
  }

  /**
   * One pass of the polling loop: `response` is the reply to `getUpdates`,
   * `None` when it failed or has no `result`. Every update moves the offset to
   * its id plus one, and is handled by `handle`.
   */
  method HandleBatch<A>(offset: Option<int>, response: Option<seq<Update>>, handle: Update -> seq<A>)
    returns (next: Option<int>, actions: seq<A>)
    ensures response.None? ==> next == offset && actions == []
    ensures response.Some? && response.value == [] ==> next == offset
    ensures response.Some? && response.value != [] ==> next == Some(response.value[|response.value| - 1].updateId + 1)
    ensures response.Some? ==> actions == BatchActions(handle, response.value)
  {
    next, actions := offset, [];
    if response.Some? {
      var updates := response.value;
      for i := 0 to |updates|
        invariant next == NextOffset(offset, updates[..i])
        invariant actions == BatchActions(handle, updates[..i])
      {
        UpdateActionsInBatch(handle, updates, i);
        next := Some(updates[i].updateId + 1);
        actions := actions + handle(updates[i]);
      }
      assert updates[..|updates|] == updates;
    }
  }
}
