/**
 * NotificationDomain (src/domains/notification.domain.ts): a notification's
 * delivery life cycle. Times are milliseconds and `now` stands for every
 * new Date() of one call. The free-form `data` payload is not modelled.
 */
module Notification {
  import opened Wrappers
  import opened Clock

  datatype Channel = Email | Sms | Push | InApp
  datatype Category = Security | System | Marketing | UserAction | Reminder
  datatype Status = Pending | Sent | Delivered | Failed | Read
  datatype Priority = Low | Medium | High | Urgent
  datatype DeliveryStatus = AwaitingDelivery | InProgress | Completed | DeliveryFailed | Expired

  datatype Notification = Notification(
    id: string, userId: string, channel: Channel, category: Category, title: string, message: string,
    status: Status, priority: Priority, scheduledAt: Option<int>, sentAt: Option<int>,
    deliveredAt: Option<int>, readAt: Option<int>, expiresAt: Option<int>,
    retryCount: int, maxRetries: int, createdAt: int, updatedAt: int)

  /** getDefaultMaxRetries: in-app notifications are never retried. */
  function DefaultMaxRetries(channel: Channel): (n: int)
    ensures n == 0 <==> channel == InApp
    ensures 0 <= n <= 3
  {
    match channel
    case Email => 3
    case Sms => 2
    case Push => 3
    case InApp => 0
  }

  /** setExpiration: how long a notification of each priority lives. */
  function Lifetime(priority: Priority): (ms: int)
    ensures ms > 0
  {
    match priority
    case Urgent => DayMs
    case High => 7 * DayMs
    case Medium => 30 * DayMs
    case Low => 90 * DayMs
  }

  /** The more urgent the notification, the sooner it expires. */
  lemma LifetimeOrdered()
    ensures Lifetime(Urgent) < Lifetime(High) < Lifetime(Medium) < Lifetime(Low)
    ensures Lifetime(Urgent) == 86400000 && Lifetime(Low) == 7776000000
    ensures Lifetime(High) == 7 * 86400000 && Lifetime(Medium) == 30 * 86400000
  {
  }

  /** The constructor: pending, never retried, with the channel's retry budget and the priority's expiry. */
  function NewNotification(id: string, userId: string, channel: Channel, category: Category, title: string,
                           message: string, priority: Option<Priority>, scheduledAt: Option<int>, now: int): (n: Notification)
    ensures n.status == Pending && n.retryCount == 0
    ensures n.priority == priority.GetOr(Medium)
    ensures n.maxRetries == DefaultMaxRetries(channel)
    ensures n.expiresAt == Some(now + Lifetime(n.priority))
    ensures n.scheduledAt == scheduledAt && n.sentAt.None? && n.deliveredAt.None? && n.readAt.None?
    ensures n.createdAt == now && n.updatedAt == now
  {
    var p := priority.GetOr(Medium);
    Notification(id, userId, channel, category, title, message, Pending, p, scheduledAt, None, None, None,
                 Some(now + Lifetime(p)), 0, DefaultMaxRetries(channel), now, now)
  }

  /** isExpired: strictly past expiresAt, and never without one. */
  predicate IsExpired(n: Notification, now: int) {
    n.expiresAt.Some? && now > n.expiresAt.value
  }

  /** isReadyToSend: pending, not before its schedule, not after its expiry. */
  function IsReadyToSend(n: Notification, now: int): (ready: bool)
    ensures ready <==>
      n.status == Pending && (n.scheduledAt.None? || now >= n.scheduledAt.value) && !IsExpired(n, now)
  {
    if n.status != Pending then false
    else if n.scheduledAt.Some? && now < n.scheduledAt.value then false
    else if n.expiresAt.Some? && now > n.expiresAt.value then false
    else true
  }

  /** canRetry: failed, with budget left. */
  predicate CanRetry(n: Notification) {
    n.status == Failed && n.retryCount < n.maxRetries
  }

  function MarkAsSent(n: Notification, now: int): (n': Notification)
    ensures n'.status == Sent && n'.sentAt == Some(now) && n'.updatedAt == now
    ensures n'.(status := n.status, sentAt := n.sentAt, updatedAt := n.updatedAt) == n
  {
    n.(status := Sent, sentAt := Some(now), updatedAt := now)
  }

  function MarkAsDelivered(n: Notification, now: int): (n': Notification)
    ensures n'.status == Delivered && n'.deliveredAt == Some(now) && n'.updatedAt == now
    ensures n'.(status := n.status, deliveredAt := n.deliveredAt, updatedAt := n.updatedAt) == n
  {
    n.(status := Delivered, deliveredAt := Some(now), updatedAt := now)
  }

  /** markAsFailed: FAILED, and one more attempt used. */
  function MarkAsFailed(n: Notification, now: int): (n': Notification)
    ensures n'.status == Failed && n'.retryCount == n.retryCount + 1 && n'.updatedAt == now
    ensures n'.(status := n.status, retryCount := n.retryCount, updatedAt := n.updatedAt) == n
  {
    n.(status := Failed, retryCount := n.retryCount + 1, updatedAt := now)
  }

  function MarkAsRead(n: Notification, now: int): (n': Notification)
    ensures n'.status == Read && n'.readAt == Some(now) && n'.updatedAt == now
    ensures n'.(status := n.status, readAt := n.readAt, updatedAt := n.updatedAt) == n
  {
    n.(status := Read, readAt := Some(now), updatedAt := now)
  }

  predicate IsUrgent(n: Notification) {
    n.priority == Urgent
  }

  /** getDeliveryStatus: expired first, then completed, in progress, failed for good, else pending. */
  function GetDeliveryStatus(n: Notification, now: int): (d: DeliveryStatus)
    ensures d == Expired <==> IsExpired(n, now)
    ensures d == Completed <==> !IsExpired(n, now) && n.status in {Read, Delivered}
    ensures d == InProgress <==> !IsExpired(n, now) && n.status == Sent
    ensures d == DeliveryFailed <==> !IsExpired(n, now) && n.status == Failed && !CanRetry(n)
    ensures d == AwaitingDelivery <==> !IsExpired(n, now) && (n.status == Pending || CanRetry(n))
  {
    if IsExpired(n, now) then Expired
    else if n.status == Read || n.status == Delivered then Completed
    else if n.status == Sent then InProgress
    else if n.status == Failed && !CanRetry(n) then DeliveryFailed
    else AwaitingDelivery
  }

  /** Failing k times in a row. */
  function FailTimes(n: Notification, k: nat, now: int): (n': Notification)
    ensures k > 0 ==> n'.status == Failed
    decreases k
  {
    if k == 0 then n else FailTimes(MarkAsFailed(n, now), k - 1, now)
  }

  /** After k failures a new notification has used k attempts, and may retry iff k is below its budget. */
  lemma {:induction false} RetryBudget(n: Notification, k: nat, now: int)
    requires n.retryCount == 0
    ensures FailTimes(n, k, now).retryCount == k
    ensures FailTimes(n, k, now).maxRetries == n.maxRetries
    ensures k > 0 ==> (CanRetry(FailTimes(n, k, now)) <==> k < n.maxRetries)
  {
    FailCount(n, k, now);
  }

  lemma {:induction false} FailCount(n: Notification, k: nat, now: int)
    ensures FailTimes(n, k, now).retryCount == n.retryCount + k
    ensures FailTimes(n, k, now).maxRetries == n.maxRetries
    decreases k
  {
    if k > 0 {
      FailCount(MarkAsFailed(n, now), k - 1, now);
    }
  }

  /** An in-app notification that failed once, before it expires, has failed for good. */
  lemma InAppFailsForGood(id: string, userId: string, category: Category, title: string, message: string,
                          priority: Option<Priority>, scheduledAt: Option<int>, created: int, failed: int, now: int)
    requires
      var n := MarkAsFailed(NewNotification(id, userId, InApp, category, title, message, priority, scheduledAt, created), failed);
      !IsExpired(n, now)
    ensures
      var n := MarkAsFailed(NewNotification(id, userId, InApp, category, title, message, priority, scheduledAt, created), failed);
      GetDeliveryStatus(n, now) == DeliveryFailed
  {
  }

  /** An e-mail that failed once goes back to pending delivery: it still has retries. */
  lemma EmailRetriesAfterFailure(id: string, userId: string, category: Category, title: string, message: string,
                                 priority: Option<Priority>, scheduledAt: Option<int>, created: int, failed: int, now: int)
    requires
      var n := MarkAsFailed(NewNotification(id, userId, Email, category, title, message, priority, scheduledAt, created), failed);
      !IsExpired(n, now)
    ensures
      var n := MarkAsFailed(NewNotification(id, userId, Email, category, title, message, priority, scheduledAt, created), failed);
      GetDeliveryStatus(n, now) == AwaitingDelivery && CanRetry(n)
  {
  }

  /** A fresh unscheduled notification is ready to send for exactly its lifetime. */
  lemma FreshReadyWindow(id: string, userId: string, channel: Channel, category: Category, title: string,
                         message: string, priority: Option<Priority>, created: int, now: int)
    ensures
      var n := NewNotification(id, userId, channel, category, title, message, priority, None, created);
      IsReadyToSend(n, now) <==> now <= created + Lifetime(n.priority)
  {
  }
}
