/**
 * The notification queries. The table is a sequence whose positions are the
 * identifiers, in creation order, so "ORDER BY createdAt DESC" lists positions
 * from the highest down.
 */
module NotificationRepository {
  import opened Common
  import opened Notifications

  predicate Unread(n: Notification, user: UserId) { n.recipient == user && !n.isRead }

  /** findByRecipientId: the user's notifications, newest first. */
  function FindByRecipientId(ns: seq<Notification>, user: UserId): (r: seq<nat>)
    ensures forall k :: k in r <==> 0 <= k < |ns| && ns[k].recipient == user
    ensures forall i, j :: 0 <= i < j < |r| ==> r[i] > r[j]
  {
    NewestFirst(ns, (n: Notification) => n.recipient == user, |ns|)
  }

  /** findUnreadByRecipientId: the user's unread notifications, newest first. */
  function FindUnreadByRecipientId(ns: seq<Notification>, user: UserId): (r: seq<nat>)
    ensures forall k :: k in r <==> 0 <= k < |ns| && Unread(ns[k], user)
    ensures forall i, j :: 0 <= i < j < |r| ==> r[i] > r[j]
  {
    NewestFirst(ns, (n: Notification) => Unread(n, user), |ns|)
  }

  /** countByRecipientIdAndIsReadFalse */
  function CountUnread(ns: seq<Notification>, user: UserId): (r: nat)
    ensures r == |FindUnreadByRecipientId(ns, user)|
    ensures r == 0 <==> forall k :: 0 <= k < |ns| ==> !Unread(ns[k], user)
  {
    var found := FindUnreadByRecipientId(ns, user);
    assert forall k :: 0 <= k < |ns| && Unread(ns[k], user) ==> found != [] by {
      forall k | 0 <= k < |ns| && Unread(ns[k], user) ensures found != [] { assert k in found; }
    }
    assert found != [] ==> found[0] in found;
    |found|
  }

  /** The table after UPDATE ... SET isRead = true WHERE recipient = :user AND isRead = false. */
  function MarkAllAsRead(ns: seq<Notification>, user: UserId): (r: seq<Notification>)
    ensures |r| == |ns|
  {
    seq(|ns|, i requires 0 <= i < |ns| => if Unread(ns[i], user) then ns[i].MarkAsRead() else ns[i])
  }

  lemma {:induction false} NoneUnreadBelow(ns: seq<Notification>, user: UserId, upto: nat)
    requires upto <= |ns|
    ensures NewestFirst(MarkAllAsRead(ns, user), (n: Notification) => Unread(n, user), upto) == []
  {
    if upto > 0 { NoneUnreadBelow(ns, user, upto - 1); }
  }

  lemma {:induction false} OthersUnchangedBelow(ns: seq<Notification>, user: UserId, other: UserId, upto: nat)
    requires upto <= |ns| && other != user
    ensures NewestFirst(MarkAllAsRead(ns, user), (n: Notification) => Unread(n, other), upto)
         == NewestFirst(ns, (n: Notification) => Unread(n, other), upto)
  {
    if upto > 0 { OthersUnchangedBelow(ns, user, other, upto - 1); }
  }

  /**
   * Marking all as read leaves the user nothing unread, leaves every other
   * user's unread list as it was, and changes exactly the rows the returned
   * count counts.
   */
  lemma MarkAllAsReadEffect(ns: seq<Notification>, user: UserId)
    ensures CountUnread(MarkAllAsRead(ns, user), user) == 0
    ensures forall other :: other != user ==>
      FindUnreadByRecipientId(MarkAllAsRead(ns, user), other) == FindUnreadByRecipientId(ns, other)
    ensures forall k :: 0 <= k < |ns| ==>
      (MarkAllAsRead(ns, user)[k] != ns[k] <==> k in FindUnreadByRecipientId(ns, user))
  {
    NoneUnreadBelow(ns, user, |ns|);
    forall other | other != user
      ensures FindUnreadByRecipientId(MarkAllAsRead(ns, user), other) == FindUnreadByRecipientId(ns, other)
    {
      OthersUnchangedBelow(ns, user, other, |ns|);
    }
  }
}
