/**
 * The message mailbox of users/messages.py and the unread counter of
 * render/utils.py. A message names its sender and its recipient, either of
 * which may be gone; opening marks it read for the recipient, and deleting
 * is two-sided: each party drops its own reference and the row goes once
 * neither is left.
 */
module Mailbox {
  import opened Common

  type ProfileId = nat
  type MessageId = nat

  datatype Message = Message(
    name: Option<string>,
    email: Option<string>,
    subject: Option<string>,
    body: string,
    isRead: bool,
    created: int,
    sender: Option<ProfileId>,
    recipient: Option<ProfileId>)

  /** The profile fields send_message_from_user copies into a message. */
  datatype Profile = Profile(username: string, email: string)

  const MessageNotFound := "Could not find the message!"
  const ProfileNotFound := "Could not found your profile"
  const CommitFailed := "An error occurred while committing to the database"

  /** The caller may see the message: it is its sender or its recipient. */
  predicate Involves(m: Message, user: ProfileId)
  {
    m.recipient == Some(user) || m.sender == Some(user)
  }

  /** The message after `user` has opened it. */
  function Opened(m: Message, user: ProfileId): (r: Message)
    ensures r.isRead <==> m.isRead || m.recipient == Some(user)
    ensures r.(isRead := m.isRead) == m
  {
    if m.recipient == Some(user) then m.(isRead := true) else m
  }

  /** The message after `user` has dropped its own references to it. */
  function Detached(m: Message, user: ProfileId): (r: Message)
    ensures r.sender == (if m.sender == Some(user) then None else m.sender)
    ensures r.recipient == (if m.recipient == Some(user) then None else m.recipient)
    ensures r.(sender := m.sender, recipient := m.recipient) == m
  {
    var m' := if m.sender == Some(user) then m.(sender := None) else m;
    if m'.recipient == Some(user) then m'.(recipient := None) else m'
  }

  /** What open_message finds: the message, if it exists and the caller is a party to it. */
  function Lookup(messages: map<MessageId, Message>, id: MessageId, user: ProfileId): (r: Option<Message>)
    ensures r.Some? <==> id in messages && Involves(messages[id], user)
    ensures r.Some? ==> r.value == messages[id]
  {
    if id in messages && Involves(messages[id], user) then Some(messages[id]) else None
  }

  /** The store after open_message: the opened message written back, or no change. */
  function AfterOpen(messages: map<MessageId, Message>, id: MessageId, user: ProfileId): map<MessageId, Message>
  {
    match Lookup(messages, id, user)
    case None => messages
    case Some(m) => messages[id := Opened(m, user)]
  }

  /**
   * The store after delete_message: the message is opened, the caller's
   * references are dropped, and the row is removed when neither reference is
   * left. None when the message is not the caller's to see.
   */
  function AfterDelete(messages: map<MessageId, Message>, id: MessageId, user: ProfileId)
    : (r: Option<map<MessageId, Message>>)
    ensures r.Some? <==> Lookup(messages, id, user).Some?
    ensures r.Some? ==> r.value.Keys <= messages.Keys
    ensures r.Some? ==> forall other :: other in messages && other != id ==>
                          other in r.value && r.value[other] == messages[other]
    ensures r.Some? && id in r.value ==> r.value[id] == Detached(Opened(messages[id], user), user)
  {
    match Lookup(messages, id, user)
    case None => None
    case Some(m) =>
      var d := Detached(Opened(m, user), user);
      if d.sender.None? && d.recipient.None? then Some(messages - {id})
      else Some(messages[id := d])
  }

  /** Deleting as a party always drops that party: the message is gone or no longer names the caller. */
  lemma DeleteDropsCaller(messages: map<MessageId, Message>, id: MessageId, user: ProfileId)
    requires Lookup(messages, id, user).Some?
    ensures var r := AfterDelete(messages, id, user).value;
            id !in r || !Involves(r[id], user)
  {
  }

  /**
   * The row is removed exactly when, after the caller's references are
   * dropped, neither a sender nor a recipient is left.
   */
  lemma DeleteRemovesIffOrphaned(messages: map<MessageId, Message>, id: MessageId, user: ProfileId)
    requires Lookup(messages, id, user).Some?
    ensures var m := messages[id];
            id !in AfterDelete(messages, id, user).value <==>
              (m.sender.None? || m.sender == Some(user)) && (m.recipient.None? || m.recipient == Some(user))
  {
  }

  /**
   * Two-sided deletion: once the sender and then the recipient (two distinct
   * profiles) have each deleted the message, it is gone and nothing else
   * changed; after the first deletion alone it is still there for the other.
   */
  lemma TwoSidedDelete(messages: map<MessageId, Message>, id: MessageId, a: ProfileId, b: ProfileId)
    requires id in messages && a != b
    requires messages[id].sender == Some(a) && messages[id].recipient == Some(b)
    ensures AfterDelete(messages, id, a).Some?
    ensures var once := AfterDelete(messages, id, a).value;
            id in once && once[id].recipient == Some(b) && once[id].sender.None? &&
            AfterDelete(once, id, b) == Some(messages - {id})
  {
    var once := AfterDelete(messages, id, a).value;
    assert once == messages[id := Detached(messages[id], a)];
    assert Lookup(once, id, b).Some?;
    assert once - {id} == messages - {id};
  }

  /** A party who is not the recipient opens without touching the read flag; the recipient marks it read. */
  lemma OpenReadFlag(messages: map<MessageId, Message>, id: MessageId, user: ProfileId)
    requires Lookup(messages, id, user).Some?
    ensures AfterOpen(messages, id, user)[id].isRead <==>
              messages[id].isRead || messages[id].recipient == Some(user)
    ensures AfterOpen(messages, id, user).Keys == messages.Keys
  {
  }

  /** Opening twice is opening once. */
  lemma OpenIdempotent(messages: map<MessageId, Message>, id: MessageId, user: ProfileId)
    ensures AfterOpen(AfterOpen(messages, id, user), id, user) == AfterOpen(messages, id, user)
  {
    if Lookup(messages, id, user).Some? {
      var m := messages[id];
      assert Opened(Opened(m, user), user) == Opened(m, user);
      assert Lookup(AfterOpen(messages, id, user), id, user) == Some(Opened(m, user));
    }
  }

  /** Key order of get_received_messages: unread first, then by creation time. */
  predicate InboxOrder(a: Message, b: Message)
  {
    (!a.isRead && b.isRead) || (a.isRead == b.isRead && a.created <= b.created)
  }

  /** The inbox order is transitive, so a list can be sorted by it. */
  lemma InboxOrderTransitive(a: Message, b: Message, c: Message)
    requires InboxOrder(a, b) && InboxOrder(b, c)
    ensures InboxOrder(a, c)
  {
  }

  /** The ids listed follow the inbox order. */
  ghost predicate SortedIds(ids: seq<MessageId>, messages: map<MessageId, Message>)
  {
    (forall i :: 0 <= i < |ids| ==> ids[i] in messages) &&
    forall i, j :: 0 <= i < j < |ids| ==> InboxOrder(messages[ids[i]], messages[ids[j]])
  }

  predicate Distinct(ids: seq<MessageId>)
  {
    forall i, j :: 0 <= i < j < |ids| ==> ids[i] != ids[j]
  }

  /** Where `id` goes: before the first listed message it does not come after. */
  function InsertPos(ids: seq<MessageId>, id: MessageId, messages: map<MessageId, Message>): (k: nat)
    requires id in messages && forall i :: 0 <= i < |ids| ==> ids[i] in messages
    ensures k <= |ids|
    ensures forall i :: 0 <= i < k ==> !InboxOrder(messages[id], messages[ids[i]])
    ensures k < |ids| ==> InboxOrder(messages[id], messages[ids[k]])
  {
    if |ids| == 0 || InboxOrder(messages[id], messages[ids[0]]) then 0
    else 1 + InsertPos(ids[1..], id, messages)
  }

  /** Inserting a new id anywhere into a list of distinct ids keeps them distinct. */
  lemma InsertDistinct(ids: seq<MessageId>, id: MessageId, k: nat)
    requires Distinct(ids) && id !in ids && k <= |ids|
    ensures Distinct(ids[..k] + [id] + ids[k..])
  {
    var r := ids[..k] + [id] + ids[k..];
    forall i, j | 0 <= i < j < |r| ensures r[i] != r[j] {
      if i < k && j > k {
        assert r[i] == ids[i] && r[j] == ids[j - 1];
      } else if j < k {
        assert r[i] == ids[i] && r[j] == ids[j];
      } else if i > k {
        assert r[i] == ids[i - 1] && r[j] == ids[j - 1];
      } else if i == k {
        assert r[j] == ids[j - 1];
      } else {
        assert r[i] == ids[i];
      }
    }
  }

  /** Inserting at InsertPos keeps a sorted list sorted. */
  lemma InsertSorted(ids: seq<MessageId>, id: MessageId, messages: map<MessageId, Message>)
    requires id in messages && SortedIds(ids, messages)
    ensures var k := InsertPos(ids, id, messages);
            SortedIds(ids[..k] + [id] + ids[k..], messages)
  {
    var k := InsertPos(ids, id, messages);
    var r := ids[..k] + [id] + ids[k..];
    forall i, j | 0 <= i < j < |r| ensures InboxOrder(messages[r[i]], messages[r[j]]) {
      if j == k {
        assert r[i] == ids[i];
      } else if i == k {
        assert r[j] == ids[j - 1];
        if j - 1 > k {
          InboxOrderTransitive(messages[id], messages[ids[k]], messages[ids[j - 1]]);
        }
      } else if i < k < j {
        assert r[i] == ids[i] && r[j] == ids[j - 1];
      } else if k < i {
        assert r[i] == ids[i - 1] && r[j] == ids[j - 1];
      } else {
        assert r[i] == ids[i] && r[j] == ids[j];
      }
    }
  }

  /** The ids of the messages received by `user`. */
  ghost function ReceivedIds(messages: map<MessageId, Message>, user: ProfileId): set<MessageId>
  {
    set id | id in messages && messages[id].recipient == Some(user)
  }

  class MessageStore {
    var messages: map<MessageId, Message>
    /**
     * The `created` every new message gets. The column's default is a value
     * computed once when models.py is loaded, not a function called per row.
     */
    const loadTime: int

    constructor(loadTime: int)
      ensures messages == map[] && this.loadTime == loadTime
    {
      messages := map[];
      this.loadTime := loadTime;
    }

    /** open_message. */
    method OpenMessage(id: MessageId, user: ProfileId) returns (r: Result<Message>)
      modifies this
      ensures Lookup(old(messages), id, user).None? ==>
                r == Err(Failure(NotFound, MessageNotFound)) && messages == old(messages)
      ensures Lookup(old(messages), id, user).Some? ==>
                r == Ok(Opened(old(messages)[id], user))
      ensures messages == AfterOpen(old(messages), id, user)
    {
      if !(id in messages && Involves(messages[id], user)) {
        return Err(Failure(NotFound, MessageNotFound));
      }
      var mes := messages[id];
      if mes.recipient == Some(user) {
        mes := mes.(isRead := true);
        messages := messages[id := mes];
      }
      r := Ok(mes);
    }

    /**
     * send_message_from_user. The new row's key is `newId`; a key already in
     * use makes the commit fail.
     */
    method SendMessageFromUser(user: ProfileId, profiles: map<ProfileId, Profile>, subject: string, body: string,
                               recipient: ProfileId, newId: MessageId)
      returns (r: Result<()>)
      modifies this
      ensures user !in profiles ==> r == Err(Failure(NotFound, ProfileNotFound)) && messages == old(messages)
      ensures user in profiles && newId in old(messages) ==>
                r == Err(Failure(InternalError, CommitFailed)) && messages == old(messages)
      ensures user in profiles && newId !in old(messages) ==>
                r == Ok(()) &&
                messages == old(messages)[newId := Message(Some(profiles[user].username), Some(profiles[user].email),
                                                           Some(subject), body, false, loadTime,
                                                           Some(user), Some(recipient))]
    {
      if user !in profiles {
        return Err(Failure(NotFound, ProfileNotFound));
      }
      var sender := profiles[user];
      if newId in messages {
        return Err(Failure(InternalError, CommitFailed));
      }
      messages := messages[newId := Message(Some(sender.username), Some(sender.email), Some(subject), body,
                                            false, loadTime, Some(user), Some(recipient))];
      r := Ok(());
    }

    /**
     * get_received_messages: every message whose recipient is the caller,
     * each once, unread first and then oldest first.
     */
    method GetReceivedMessages(user: ProfileId) returns (ids: seq<MessageId>)
      ensures forall i :: 0 <= i < |ids| ==> ids[i] in messages && messages[ids[i]].recipient == Some(user)
      ensures forall id :: id in messages && messages[id].recipient == Some(user) ==> id in ids
      ensures Distinct(ids)
      ensures SortedIds(ids, messages)
    {
      ids := [];
      var remaining := messages.Keys;
      while remaining != {}
        invariant remaining <= messages.Keys
        invariant forall i :: 0 <= i < |ids| ==> ids[i] in messages && ids[i] !in remaining &&
                                                 messages[ids[i]].recipient == Some(user)
        invariant forall id :: id in messages && id !in remaining && messages[id].recipient == Some(user) ==>
                                 id in ids
        invariant Distinct(ids) && SortedIds(ids, messages)
        decreases remaining
      {
        var id :| id in remaining;
        remaining := remaining - {id};
        if messages[id].recipient == Some(user) {
          InsertSorted(ids, id, messages);
          var k := InsertPos(ids, id, messages);
          InsertDistinct(ids, id, k);
          ids := ids[..k] + [id] + ids[k..];
        }
      }
    }

    /** delete_message. */
    method DeleteMessage(id: MessageId, user: ProfileId) returns (r: Result<()>)
      modifies this
      ensures AfterDelete(old(messages), id, user).None? ==>
                r == Err(Failure(NotFound, MessageNotFound)) && messages == old(messages)
      ensures AfterDelete(old(messages), id, user).Some? ==>
                r == Ok(()) && messages == AfterDelete(old(messages), id, user).value
    {
      var found := OpenMessage(id, user);
      if found.Err? {
        return Err(found.failure);
      }
      var mes := found.value;
      if mes.sender == Some(user) {
        mes := mes.(sender := None);
      }
      if mes.recipient == Some(user) {
        mes := mes.(recipient := None);
      }
      if mes.sender.None? && mes.recipient.None? {
        messages := messages - {id};
      } else {
        messages := messages[id := mes];
      }
      r := Ok(());
    }
  }

  /** _unread_count: the number of messages not yet read. */
  function UnreadCount(ms: seq<Message>): (n: nat)
    ensures n <= |ms|
    ensures n == 0 <==> forall i :: 0 <= i < |ms| ==> ms[i].isRead
    ensures n == |ms| <==> forall i :: 0 <= i < |ms| ==> !ms[i].isRead
  {
    if |ms| == 0 then 0
    else (if ms[0].isRead then 0 else 1) + UnreadCount(ms[1..])
  }

  /** The count adds up over consecutive parts of an inbox. */
  lemma {:induction false} UnreadCountAppend(a: seq<Message>, b: seq<Message>)
    ensures UnreadCount(a + b) == UnreadCount(a) + UnreadCount(b)
  {
    if |a| == 0 {
      assert a + b == b;
    } else {
      assert (a + b)[0] == a[0];
      assert (a + b)[1..] == a[1..] + b;
      UnreadCountAppend(a[1..], b);
    }
  }

  /** Opening one listed message as its recipient lowers the count by one if it was unread, else keeps it. */
  lemma UnreadCountAfterOpen(ms: seq<Message>, i: nat, user: ProfileId)
    requires i < |ms| && ms[i].recipient == Some(user)
    ensures UnreadCount(ms[i := Opened(ms[i], user)]) == UnreadCount(ms) - (if ms[i].isRead then 0 else 1)
  {
    var after := ms[i := Opened(ms[i], user)];
    assert ms == ms[..i] + [ms[i]] + ms[i + 1..];
    assert after == ms[..i] + [Opened(ms[i], user)] + ms[i + 1..];
    UnreadCountAppend(ms[..i] + [ms[i]], ms[i + 1..]);
    UnreadCountAppend(ms[..i], [ms[i]]);
    UnreadCountAppend(ms[..i] + [Opened(ms[i], user)], ms[i + 1..]);
    UnreadCountAppend(ms[..i], [Opened(ms[i], user)]);
  }
}
