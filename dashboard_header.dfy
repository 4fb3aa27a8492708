/** frontend/app/components/DashboardHeader.js: the text shown for one
    notification, which depends on the viewer's role, and the empty state of
    the notification list. */
module DashboardHeader {
  import opened Common
  import opened Tables
  import Ppv
  import Follow

  const FOLLOWED_YOU: string := "\U{1F389} Someone followed you!"
  const YOU_FOLLOWED: string := "\U{1F389} You followed someone!"
  const SOMEONE_UNLOCKED: string := "\U{1F4B0} Someone unlocked post #"
  const YOU_UNLOCKED: string := "\U{1F4B0} You unlocked post #"
  const ACTIVITY: string := "\U{2139}\U{FE0F} Activity update"
  const NO_NOTIFICATIONS: string := "No notifications yet"

  /** `${n?.metadata?.post_id}`: a missing key prints as `undefined`. */
  function PostIdText(metadata: Meta): (t: string)
    ensures "post_id" in metadata ==> t == NatStr(metadata["post_id"])
    ensures "post_id" !in metadata ==> t == "undefined"
  {
    if "post_id" in metadata then NatStr(metadata["post_id"]) else "undefined"
  }

  /** `formatNotificationText(n, role)`. */
  function NotificationText(n: Notification, role: Option<string>): string {
    if role == Some("creator") then
      if n.kind == "follow" then FOLLOWED_YOU
      else if n.kind == "unlock" then SOMEONE_UNLOCKED + PostIdText(n.metadata)
      else ACTIVITY
    else
      if n.kind == "follow" then YOU_FOLLOWED
      else if n.kind == "unlock" then YOU_UNLOCKED + PostIdText(n.metadata)
      else ACTIVITY
  }

  /** The viewer's role changes the text of follow and unlock notices and
      of nothing else. */
  lemma RoleMattersOnlyForFollowAndUnlock(n: Notification, role: Option<string>)
    requires role != Some("creator")
    ensures NotificationText(n, Some("creator")) != NotificationText(n, role)
        <==> n.kind == "follow" || n.kind == "unlock"
  {
    if n.kind == "follow" {
      assert FOLLOWED_YOU[2] != YOU_FOLLOWED[2];
    } else if n.kind == "unlock" {
      var t := PostIdText(n.metadata);
      assert (SOMEONE_UNLOCKED + t)[2] != (YOU_UNLOCKED + t)[2];
    }
  }

  /** The text depends on nothing but the kind, the role and the post id in
      the metadata. */
  lemma NotificationTextDependsOnKindRolePost(n1: Notification, n2: Notification, role: Option<string>)
    requires n1.kind == n2.kind
    requires ("post_id" in n1.metadata) == ("post_id" in n2.metadata)
    requires "post_id" in n1.metadata ==> n1.metadata["post_id"] == n2.metadata["post_id"]
    ensures NotificationText(n1, role) == NotificationText(n2, role)
  {
  }

  /** A notice the pay-per-view unlock writes reads, for its creator, as the
      post that was unlocked; a follow notice reads as a new follower. */
  lemma BackendNoticesRead(id: Id, creator: Id, buyer: Id, post: Id, now: Millis)
    ensures NotificationText(Ppv.UnlockNotice(id, creator, buyer, post, now), Some("creator"))
         == SOMEONE_UNLOCKED + NatStr(post)
    ensures NotificationText(Follow.FollowNotice(id, creator, buyer, now), Some("creator")) == FOLLOWED_YOU
  {
  }

  /** The two states of `NotificationList`. */
  datatype ListView = NoneYet(text: string) | Items(lines: seq<string>)

  /** `NotificationList({ items, role })`; `None` stands for a missing list. */
  function NotificationList(items: Option<seq<Notification>>, role: Option<string>): (v: ListView)
    ensures v.NoneYet? <==> items.None? || items.value == []
    ensures v.NoneYet? ==> v.text == NO_NOTIFICATIONS
    ensures v.Items? ==> |v.lines| == |items.value|
    ensures v.Items? ==> forall i :: 0 <= i < |v.lines| ==> v.lines[i] == NotificationText(items.value[i], role)
  {
    if items.None? || items.value == [] then NoneYet(NO_NOTIFICATIONS)
    else Items(seq(|items.value|, i requires 0 <= i < |items.value| => NotificationText(items.value[i], role)))
  }
}
