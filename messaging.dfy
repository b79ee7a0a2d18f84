/** Messaging (`messaging` application models): read marks of personal
    messages and notifications, message threads, the notification signals
    for personal messages, thread messages and announcements, and the
    per-user read records of group messages and announcements. Moments are
    integers, dates day numbers; notification titles, texts, icons and
    links are not modelled. */
module Messaging {
  import opened Common

  // -----------------------------------------------------------------------
  // Rows

  /** A personal message (`Message`). */
  datatype Message = Message(
    sender: int,
    recipient: int,
    subject: string,
    isRead: bool,
    readAt: Option<int>,
    deletedBySender: bool,
    deletedByRecipient: bool)

  /** `is_completely_deleted`: deleted on both sides. */
  predicate CompletelyDeleted(m: Message) {
    m.deletedBySender && m.deletedByRecipient
  }

  datatype NotificationType = SystemNotice | AcademicNotice | MessageNotice | ScheduleNotice
                            | GradeNotice | CourseNotice | AnnouncementNotice | OtherNotice

  /** A notification (`Notification`) about the object `objectId`. */
  datatype Notification = Notification(
    user: int,
    kind: NotificationType,
    objectId: int,
    isImportant: bool,
    isRead: bool,
    readAt: Option<int>)

  /** A user's notification settings (`NotificationPreference`); the
      delivery window is in minutes of the day. */
  datatype Preferences = Preferences(
    web: bool, email: bool, sms: bool, push: bool,
    system: bool, academic: bool, messages: bool, schedule: bool,
    grades: bool, courses: bool, announcements: bool,
    startMinute: nat, endMinute: nat)

  /** The settings a new user gets: every kind and channel on but SMS,
      from 09:00 to 21:00. */
  function DefaultPreferences(): (p: Preferences)
    ensures !p.sms && p.web && p.email && p.push
    ensures p.system && p.academic && p.messages && p.schedule && p.grades && p.courses && p.announcements
    ensures p.startMinute == 9 * 60 && p.endMinute == 21 * 60
  {
    Preferences(true, true, false, true, true, true, true, true, true, true, true, 540, 1260)
  }

  /** A message thread (`MessageThread`). */
  datatype Thread = Thread(subject: string, participants: seq<int>, lastMessageAt: int)

  /** A read record of a group message or an announcement (the `read_by`
      rows), unique per item and user. */
  datatype ReadMark = ReadMark(item: int, user: int, at: int)

  /** The messaging tables. */
  class MessageStore {
    var messages: seq<Message>
    var notifications: seq<Notification>
    var threads: seq<Thread>
    var preferences: map<int, Preferences>
    var groupReads: seq<ReadMark>
    var announcementReads: seq<ReadMark>

    constructor ()
      ensures messages == [] && notifications == [] && threads == [] && preferences == map[]
      ensures groupReads == [] && announcementReads == []
    {
      messages := [];
      notifications := [];
      threads := [];
      preferences := map[];
      groupReads := [];
      announcementReads := [];
    }
  }

  // -----------------------------------------------------------------------
  // Read marks of messages and notifications

  /** The unread personal messages of a user that the user has not
      deleted, as the unread counter counts them. */
  function PersonalUnread(messages: seq<Message>, user: int): nat {
    CountWhere(messages, (m: Message) => m.recipient == user && !m.isRead && !m.deletedByRecipient)
  }

  /** `Message.mark_as_read`: the first call marks the message read at
      `now`; later calls change nothing. */
  method MarkMessageRead(store: MessageStore, i: nat, now: int)
    requires i < |store.messages|
    modifies store
    ensures store.messages == old(store.messages)[i :=
      if old(store.messages[i]).isRead then old(store.messages[i]) else old(store.messages[i]).(isRead := true, readAt := Some(now))]
    ensures store.notifications == old(store.notifications) && store.threads == old(store.threads)
    ensures store.preferences == old(store.preferences)
    ensures store.groupReads == old(store.groupReads) && store.announcementReads == old(store.announcementReads)
  {
    var m := store.messages[i];
    if !m.isRead {
      store.messages := store.messages[i := m.(isRead := true, readAt := Some(now))];
    }
  }

  /** Reading a message lowers its recipient's unread count by one exactly
      when it counted as unread, and leaves every other user's count
      alone; reading it again changes nothing. */
  lemma MarkReadLowersUnread(messages: seq<Message>, i: nat, now: int, user: int)
    requires i < |messages|
    ensures var m := messages[i];
      var r := messages[i := if m.isRead then m else m.(isRead := true, readAt := Some(now))];
      PersonalUnread(r, user) + (if m.recipient == user && !m.isRead && !m.deletedByRecipient then 1 else 0) ==
        PersonalUnread(messages, user) &&
      r[i].isRead && (m.isRead ==> r == messages)
  {
    var m := messages[i];
    var x := if m.isRead then m else m.(isRead := true, readAt := Some(now));
    CountWhereUpdate(messages, i, x, (m: Message) => m.recipient == user && !m.isRead && !m.deletedByRecipient);
    if m.isRead {
      assert messages[i := x] == messages;
    }
  }

  function UnreadNotifications(ns: seq<Notification>, user: int): nat {
    CountWhere(ns, (n: Notification) => n.user == user && !n.isRead)
  }

  /** `Notification.mark_as_read`, with the same first-call rule. */
  method MarkNotificationRead(store: MessageStore, i: nat, now: int)
    requires i < |store.notifications|
    modifies store
    ensures store.notifications == old(store.notifications)[i :=
      if old(store.notifications[i]).isRead then old(store.notifications[i])
      else old(store.notifications[i]).(isRead := true, readAt := Some(now))]
    ensures store.messages == old(store.messages) && store.threads == old(store.threads)
    ensures store.preferences == old(store.preferences)
    ensures store.groupReads == old(store.groupReads) && store.announcementReads == old(store.announcementReads)
  {
    var n := store.notifications[i];
    if !n.isRead {
      store.notifications := store.notifications[i := n.(isRead := true, readAt := Some(now))];
    }
  }

  /** `get_unread_count` drops by one exactly when an unread notification
      of the user is read; the first reading moment is kept. */
  lemma NotificationReadLowersUnread(ns: seq<Notification>, i: nat, now: int, user: int)
    requires i < |ns|
    ensures var n := ns[i];
      var r := ns[i := if n.isRead then n else n.(isRead := true, readAt := Some(now))];
      UnreadNotifications(r, user) + (if n.user == user && !n.isRead then 1 else 0) == UnreadNotifications(ns, user) &&
      (n.isRead ==> r[i].readAt == n.readAt) && (!n.isRead ==> r[i].readAt == Some(now))
  {
    var n := ns[i];
    var x := if n.isRead then n else n.(isRead := true, readAt := Some(now));
    CountWhereUpdate(ns, i, x, (n: Notification) => n.user == user && !n.isRead);
  }

  // -----------------------------------------------------------------------
  // Thread messages

  /** `ThreadMessage.save` with its `post_save` receiver: only a new
      message moves its thread's last message moment to its creation
      moment, and only a new message runs
      `create_thread_message_notification`. */
  method SaveThreadMessage(store: MessageStore, thread: nat, sender: int, messageId: int, isNew: bool, createdAt: int)
    requires thread < |store.threads|
    modifies store
    ensures isNew ==> store.threads == old(store.threads)[thread := old(store.threads[thread]).(lastMessageAt := createdAt)]
    ensures !isNew ==> store.threads == old(store.threads)
    ensures store.notifications == old(store.notifications) +
      (if isNew then Notices(old(store.threads[thread]).participants, {sender} + MessageOptOuts(old(store.preferences)), MessageNotice, messageId, false)
       else [])
    ensures store.messages == old(store.messages) && store.preferences == old(store.preferences)
    ensures store.groupReads == old(store.groupReads) && store.announcementReads == old(store.announcementReads)
  {
    if isNew {
      store.threads := store.threads[thread := store.threads[thread].(lastMessageAt := createdAt)];
    }
    NotifyThreadMessage(store, thread, sender, messageId, isNew);
  }

  // -----------------------------------------------------------------------
  // Notification fan-out

  /** The users whose settings turn message notifications off; a user
      without settings is notified. */
  function MessageOptOuts(prefs: map<int, Preferences>): set<int> {
    set u | u in prefs && !prefs[u].messages
  }

  function AnnouncementOptOuts(prefs: map<int, Preferences>): set<int> {
    set u | u in prefs && !prefs[u].announcements
  }

  /** One unread notification for each of `users` not in `skip`, in order. */
  function Notices(users: seq<int>, skip: set<int>, kind: NotificationType, objectId: int, important: bool): (ns: seq<Notification>)
    ensures |ns| <= |users|
  {
    if users == [] then []
    else
      var n := |users| - 1;
      Notices(users[..n], skip, kind, objectId, important) +
      (if users[n] in skip then [] else [Notification(users[n], kind, objectId, important, false, None)])
  }

  /** Every notice of the fan-out goes to a listed user who is not
      skipped, unread, with the given kind, object and importance. */
  lemma {:induction false} NoticesShape(users: seq<int>, skip: set<int>, kind: NotificationType, objectId: int, important: bool)
    ensures forall n :: n in Notices(users, skip, kind, objectId, important) ==>
      n.user !in skip && n.user in users && n.kind == kind && n.objectId == objectId &&
      n.isImportant == important && !n.isRead && n.readAt.None?
  {
    if users != [] {
      var n := |users| - 1;
      NoticesShape(users[..n], skip, kind, objectId, important);
      var ns := Notices(users, skip, kind, objectId, important);
      var before := Notices(users[..n], skip, kind, objectId, important);
      assert forall x :: x in users[..n] ==> x in users;
      assert forall m :: m in ns ==> m in before || m == Notification(users[n], kind, objectId, important, false, None);
    }
  }

  /** The fan-out notifies exactly the users listed and not skipped. */
  lemma {:induction false} NoticesReachExactly(users: seq<int>, skip: set<int>, kind: NotificationType, objectId: int, important: bool, u: int)
    ensures (exists n :: n in Notices(users, skip, kind, objectId, important) && n.user == u) <==> u in users && u !in skip
  {
    NoticesShape(users, skip, kind, objectId, important);
    if users != [] {
      var n := |users| - 1;
      NoticesReachExactly(users[..n], skip, kind, objectId, important, u);
      var ns := Notices(users, skip, kind, objectId, important);
      var before := Notices(users[..n], skip, kind, objectId, important);
      if u in users && u !in skip {
        if u in users[..n] {
          var m :| m in before && m.user == u;
          assert m in ns;
        } else {
          assert users == users[..n] + [users[n]];
          assert Notification(u, kind, objectId, important, false, None) in ns;
        }
      }
    }
  }

  /** The loop of a notification signal over its recipients. */
  method Notify(store: MessageStore, users: seq<int>, skip: set<int>, kind: NotificationType, objectId: int, important: bool)
    modifies store
    ensures store.notifications == old(store.notifications) + Notices(users, skip, kind, objectId, important)
    ensures store.messages == old(store.messages) && store.threads == old(store.threads)
    ensures store.preferences == old(store.preferences)
    ensures store.groupReads == old(store.groupReads) && store.announcementReads == old(store.announcementReads)
  {
    var k := 0;
    while k < |users|
      invariant 0 <= k <= |users|
      invariant store.notifications == old(store.notifications) + Notices(users[..k], skip, kind, objectId, important)
      invariant store.messages == old(store.messages) && store.threads == old(store.threads)
      invariant store.preferences == old(store.preferences)
      invariant store.groupReads == old(store.groupReads) && store.announcementReads == old(store.announcementReads)
    {
      assert users[..k + 1][..k] == users[..k];
      if users[k] !in skip {
        store.notifications := store.notifications + [Notification(users[k], kind, objectId, important, false, None)];
      }
      k := k + 1;
    }
    assert users[..k] == users;
  }

  /** `create_message_notification`: a new personal message notifies its
      recipient unless the recipient turned message notifications off. */
  method NotifyPersonalMessage(store: MessageStore, message: nat, created: bool)
    requires message < |store.messages|
    modifies store
    ensures created ==> (store.notifications == old(store.notifications) +
      Notices([old(store.messages[message]).recipient], MessageOptOuts(old(store.preferences)), MessageNotice, message, false))
    ensures !created ==> store.notifications == old(store.notifications)
    ensures store.messages == old(store.messages) && store.threads == old(store.threads)
    ensures store.preferences == old(store.preferences)
    ensures store.groupReads == old(store.groupReads) && store.announcementReads == old(store.announcementReads)
  {
    if created {
      Notify(store, [store.messages[message].recipient], MessageOptOuts(store.preferences), MessageNotice, message, false);
    }
  }

  /** `create_thread_message_notification`: a new thread message notifies
      every participant but its sender, skipping those who turned message
      notifications off. */
  method NotifyThreadMessage(store: MessageStore, thread: nat, sender: int, messageId: int, created: bool)
    requires thread < |store.threads|
    modifies store
    ensures created ==> (store.notifications == old(store.notifications) +
      Notices(old(store.threads[thread]).participants, {sender} + MessageOptOuts(old(store.preferences)), MessageNotice, messageId, false))
    ensures !created ==> store.notifications == old(store.notifications)
    ensures store.messages == old(store.messages) && store.threads == old(store.threads)
    ensures store.preferences == old(store.preferences)
    ensures store.groupReads == old(store.groupReads) && store.announcementReads == old(store.announcementReads)
  {
    if created {
      Notify(store, store.threads[thread].participants, {sender} + MessageOptOuts(store.preferences), MessageNotice, messageId, false);
    }
  }

  /** Who a thread message reaches: a participant other than the sender,
      unless a settings row turns message notifications off. */
  lemma ThreadMessageReaches(participants: seq<int>, sender: int, prefs: map<int, Preferences>, messageId: int, u: int)
    ensures (exists n :: n in Notices(participants, {sender} + MessageOptOuts(prefs), MessageNotice, messageId, false) && n.user == u) <==>
      u in participants && u != sender && (u !in prefs || prefs[u].messages)
  {
    NoticesReachExactly(participants, {sender} + MessageOptOuts(prefs), MessageNotice, messageId, false, u);
  }

  /** `create_notification_preferences`: a new user gets the default
      settings (the settings row is one-to-one with the user). */
  method CreatePreferences(store: MessageStore, user: int, created: bool)
    requires created ==> user !in store.preferences
    modifies store
    ensures store.preferences == if created then old(store.preferences)[user := DefaultPreferences()] else old(store.preferences)
    ensures store.messages == old(store.messages) && store.threads == old(store.threads)
    ensures store.notifications == old(store.notifications)
    ensures store.groupReads == old(store.groupReads) && store.announcementReads == old(store.announcementReads)
  {
    if created {
      store.preferences := store.preferences[user := DefaultPreferences()];
    }
  }

  // -----------------------------------------------------------------------
  // Announcements

  datatype Priority = Low | Normal | High | Urgent

  datatype AnnouncementStatus = Draft | Published | Archived

  /** The staff of a department as the audience code lists them. */
  datatype Staff = Staff(teachers: seq<int>, methodists: seq<int>)

  /** The target group of an announcement; `heads` and `deans` are absent
      when the group has no such relation, and `OtherGroup` is a target of
      any other model, named by `model`. */
  datatype TargetGroup =
    | StudyGroup(students: seq<int>)
    | Department(staff: Staff, heads: Option<seq<int>>)
    | Faculty(departments: seq<Staff>, deans: Option<seq<int>>)
    | OtherGroup(model: string)

  function StaffOf(departments: seq<Staff>): seq<int> {
    if departments == [] then []
    else
      var n := |departments| - 1;
      StaffOf(departments[..n]) + departments[n].teachers + departments[n].methodists
  }

  /** The users an announcement goes to: everybody for a public one,
      otherwise the members of its target group. */
  function Audience(isPublic: bool, allUsers: seq<int>, target: Option<TargetGroup>): seq<int> {
    if isPublic then allUsers
    else if target.None? then []
    else match target.value
      case StudyGroup(students) => students
      case Department(staff, heads) => staff.teachers + staff.methodists + (if heads.Some? then heads.value else [])
      case Faculty(departments, deans) => StaffOf(departments) + (if deans.Some? then deans.value else [])
      case OtherGroup(_) => []
  }

  lemma {:induction false} StaffOfMembers(departments: seq<Staff>, u: int)
    ensures u in StaffOf(departments) <==>
      exists d :: 0 <= d < |departments| && (u in departments[d].teachers || u in departments[d].methodists)
  {
    if departments != [] {
      var n := |departments| - 1;
      StaffOfMembers(departments[..n], u);
      assert StaffOf(departments) == StaffOf(departments[..n]) + departments[n].teachers + departments[n].methodists;
      if u in StaffOf(departments[..n]) {
        var d :| 0 <= d < n && (u in departments[..n][d].teachers || u in departments[..n][d].methodists);
        assert departments[..n][d] == departments[d];
      }
      if exists d :: 0 <= d < n && (u in departments[d].teachers || u in departments[d].methodists) {
        var d :| 0 <= d < n && (u in departments[d].teachers || u in departments[d].methodists);
        assert departments[..n][d] == departments[d];
      }
    }
  }

  /** A faculty announcement reaches exactly the teachers and methodists of
      its departments and its deans. */
  lemma FacultyAudience(departments: seq<Staff>, deans: Option<seq<int>>, allUsers: seq<int>, u: int)
    ensures u in Audience(false, allUsers, Some(Faculty(departments, deans))) <==>
      (exists d :: 0 <= d < |departments| && (u in departments[d].teachers || u in departments[d].methodists)) ||
      (deans.Some? && u in deans.value)
  {
    StaffOfMembers(departments, u);
  }

  /** The model name of a target group's content type, as the audience
      code compares it. */
  function TargetModel(t: TargetGroup): string {
    match t
    case StudyGroup(_) => "group"
    case Department(_, _) => "department"
    case Faculty(_, _) => "faculty"
    case OtherGroup(model) => model
  }

  /** An announcement (`Announcement`). `targetType` and `targetName` are
      the columns that cache the target group's model and text. */
  class Announcement {
    var status: AnnouncementStatus
    var priority: Priority
    var isPublic: bool
    var sendNotification: bool
    var start: int
    var end: Option<int>
    var target: Option<TargetGroup>
    var targetType: string
    var targetName: string

    constructor (status: AnnouncementStatus, priority: Priority, isPublic: bool, start: int, end: Option<int>, target: Option<TargetGroup>)
      ensures this.status == status && this.priority == priority && this.isPublic == isPublic
      ensures this.start == start && this.end == end && this.target == target && sendNotification
      ensures targetType == "" && targetName == ""
    {
      this.status := status;
      this.priority := priority;
      this.isPublic := isPublic;
      this.sendNotification := true;
      this.start := start;
      this.end := end;
      this.target := target;
      this.targetType := "";
      this.targetName := "";
    }

    /** `is_active`: published, started and not yet over. */
    predicate IsActive(today: int)
      reads this
    {
      status == Published && start <= today && (end.None? || end.value >= today)
    }

    /** `save` with its `post_save` receiver: the target group's model and
        text (`targetText`, its `__str__`) are cached, an announcement
        without an end runs 30 days, and then
        `create_announcement_notification` runs, on every save. The
        announcement's id is `id`; `allUsers` lists every user. */
    method Save(store: MessageStore, id: int, allUsers: seq<int>, targetText: string)
      modifies this, store
      ensures end == if old(end).None? then Some(start + 30) else old(end)
      ensures old(target).Some? ==> targetType == TargetModel(old(target).value) && targetName == targetText
      ensures old(target).None? ==> targetType == old(targetType) && targetName == old(targetName)
      ensures status == old(status) && priority == old(priority) && start == old(start) && target == old(target)
      ensures isPublic == old(isPublic) && sendNotification == old(sendNotification)
      ensures end.Some? && (IsActive(old(start) + 30) <==> status == Published && end.value >= start + 30)
      ensures store.notifications == old(store.notifications) +
        (if status == Published && sendNotification
         then Notices(Audience(isPublic, allUsers, target), AnnouncementOptOuts(old(store.preferences)), AnnouncementNotice, id, Important(priority))
         else [])
      ensures store.messages == old(store.messages) && store.threads == old(store.threads)
      ensures store.preferences == old(store.preferences)
      ensures store.groupReads == old(store.groupReads) && store.announcementReads == old(store.announcementReads)
    {
      if target.Some? {
        targetType := TargetModel(target.value);
        targetName := targetText;
      }
      if end.None? {
        end := Some(start + 30);
      }
      NotifyAnnouncement(store, this, id, allUsers);
    }
  }

  /** Whether announcement notifications are marked important. */
  predicate Important(p: Priority) {
    p == High || p == Urgent
  }

  /** `create_announcement_notification`, run on every save of the
      announcement, not only the first: a published announcement that
      sends notifications notifies its audience, skipping users who turned
      announcement notifications off. */
  method NotifyAnnouncement(store: MessageStore, a: Announcement, announcement: int, allUsers: seq<int>)
    modifies store
    ensures a.status == Published && a.sendNotification ==>
      (store.notifications == old(store.notifications) +
        Notices(Audience(a.isPublic, allUsers, a.target), AnnouncementOptOuts(old(store.preferences)), AnnouncementNotice, announcement, Important(a.priority)))
    ensures !(a.status == Published && a.sendNotification) ==> store.notifications == old(store.notifications)
    ensures store.messages == old(store.messages) && store.threads == old(store.threads)
    ensures store.preferences == old(store.preferences)
    ensures store.groupReads == old(store.groupReads) && store.announcementReads == old(store.announcementReads)
  {
    if a.status == Published && a.sendNotification {
      Notify(store, Audience(a.isPublic, allUsers, a.target), AnnouncementOptOuts(store.preferences), AnnouncementNotice, announcement, Important(a.priority));
    }
  }

  // -----------------------------------------------------------------------
  // Per-user read records

  predicate HasMark(marks: seq<ReadMark>, item: int, user: int) {
    exists k :: 0 <= k < |marks| && marks[k].item == item && marks[k].user == user
  }

  predicate UniqueMarks(marks: seq<ReadMark>) {
    forall a, b :: 0 <= a < b < |marks| ==> !(marks[a].item == marks[b].item && marks[a].user == marks[b].user)
  }

  /** Whether the user already read the item, by a scan of the records. */
  method FindMark(marks: seq<ReadMark>, item: int, user: int) returns (found: bool)
    ensures found <==> HasMark(marks, item, user)
  {
    found := false;
    var k := 0;
    while k < |marks| && !found
      invariant 0 <= k <= |marks|
      invariant found <==> exists j :: 0 <= j < k && marks[j].item == item && marks[j].user == user
    {
      found := marks[k].item == item && marks[k].user == user;
      k := k + 1;
    }
  }

  /** The records after a read: a record is added only when none exists. */
  function WithMark(marks: seq<ReadMark>, item: int, user: int, now: int): seq<ReadMark> {
    if HasMark(marks, item, user) then marks else marks + [ReadMark(item, user, now)]
  }

  /** Records stay unique per item and user, the user has read the item
      afterwards, and reading again changes nothing. */
  lemma WithMarkKeepsOnePerUser(marks: seq<ReadMark>, item: int, user: int, now: int, later: int)
    requires UniqueMarks(marks)
    ensures var r := WithMark(marks, item, user, now);
      UniqueMarks(r) && HasMark(r, item, user) && WithMark(r, item, user, later) == r &&
      |r| <= |marks| + 1
  {
    var r := WithMark(marks, item, user, now);
    if !HasMark(marks, item, user) {
      assert r[|marks|].item == item && r[|marks|].user == user;
    }
  }

  /** `mark_as_read_for_user` of a group message. */
  method MarkGroupMessageRead(store: MessageStore, message: int, user: int, now: int)
    modifies store
    ensures store.groupReads == WithMark(old(store.groupReads), message, user, now)
    ensures store.messages == old(store.messages) && store.threads == old(store.threads)
    ensures store.preferences == old(store.preferences) && store.notifications == old(store.notifications)
    ensures store.announcementReads == old(store.announcementReads)
  {
    var found := FindMark(store.groupReads, message, user);
    if !found {
      store.groupReads := store.groupReads + [ReadMark(message, user, now)];
    }
  }

  /** `Announcement.mark_as_read` for a user. */
  method MarkAnnouncementRead(store: MessageStore, announcement: int, user: int, now: int)
    modifies store
    ensures store.announcementReads == WithMark(old(store.announcementReads), announcement, user, now)
    ensures store.messages == old(store.messages) && store.threads == old(store.threads)
    ensures store.preferences == old(store.preferences) && store.notifications == old(store.notifications)
    ensures store.groupReads == old(store.groupReads)
  {
    var found := FindMark(store.announcementReads, announcement, user);
    if !found {
      store.announcementReads := store.announcementReads + [ReadMark(announcement, user, now)];
    }
  }
}
