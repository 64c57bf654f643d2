/**
 * The notification registry: at most one live notification per
 * (content, type), re-armed rather than duplicated when added again, and
 * removed when closed. Its on-screen element and the timer callbacks are not
 * modelled; an armed timer is recorded by its delay.
 */
module Notifications {
  import opened Collections

  /** A notification's content: markup text, compared by value, or an element, compared by reference. */
  datatype Content = Text(html: string) | Element(ref: nat)

  /** The delays in milliseconds armed by the `ttl` setter: a falsy ttl (0, or none given) arms nothing. */
  function Armed(ttl: int): seq<int>
  {
    if ttl != 0 then [ttl * 1000] else []
  }

  /** The timer log after `notification.ttl = ttl`. */
  function AfterSetTtl(timers: seq<int>, ttl: int): seq<int>
  {
    timers + Armed(ttl)
  }

  /** The delay of the live timer: every arming clears the one before it. */
  function Expiry(timers: seq<int>): Option<int>
  {
    if timers == [] then None else Some(timers[|timers| - 1])
  }

  /** A truthy ttl replaces the expiry with ttl seconds; a falsy one leaves it as it was. */
  lemma SetTtlReplacesExpiry(timers: seq<int>, ttl: int)
    ensures ttl != 0 ==> Expiry(AfterSetTtl(timers, ttl)) == Some(ttl * 1000)
    ensures ttl == 0 ==> Expiry(AfterSetTtl(timers, ttl)) == Expiry(timers)
  {
    if ttl == 0 {
      assert timers + [] == timers;
    }
  }

  class Notification {
    const content: Content
    /** `type`: the style variant, absent when not given. */
    const kind: Option<string>
    /** Delays of the timers armed so far; the last one is live. */
    var timers: seq<int>

    constructor(content: Content, kind: Option<string>, ttl: int)
      ensures this.content == content && this.kind == kind
      ensures timers == Armed(ttl)
    {
      this.content := content;
      this.kind := kind;
      timers := [];
      new;
      SetTtl(ttl);
    }

    /** `set ttl(ttl)` */
    method SetTtl(ttl: int)
      modifies this
      ensures timers == AfterSetTtl(old(timers), ttl)
    {
      if ttl != 0 {
        timers := timers + [ttl * 1000];
      } else {
        assert timers + [] == timers;
      }
    }
  }

  /** Loose `==` on both content and type, as `_getNotification` compares them. */
  predicate SameAs(n: Notification, content: Content, kind: Option<string>)
  {
    n.content == content && n.kind == kind
  }

  /** No two registered notifications have equal content and type. */
  predicate Distinct(ns: seq<Notification>)
  {
    forall i, j :: 0 <= i < j < |ns| ==> !SameAs(ns[j], ns[i].content, ns[i].kind)
  }

  /** The first registered notification with this content and type, as iteration meets it. */
  function Find(ns: seq<Notification>, content: Content, kind: Option<string>): (r: Option<nat>)
    ensures r.Some? <==> exists i :: 0 <= i < |ns| && SameAs(ns[i], content, kind)
    ensures r.Some? ==> r.value < |ns| && SameAs(ns[r.value], content, kind)
    ensures r.Some? ==> forall i :: 0 <= i < r.value ==> !SameAs(ns[i], content, kind)
    decreases |ns|
  {
    if ns == [] then None
    else if SameAs(ns[0], content, kind) then Some(0)
    else
      var rest := Find(ns[1..], content, kind);
      if rest.None? then None else Some(rest.value + 1)
  }

  /** In a registry without duplicates the match is the only one, so the iteration order does not matter. */
  lemma FindUnique(ns: seq<Notification>, i: int)
    requires Distinct(ns) && 0 <= i < |ns|
    ensures Find(ns, ns[i].content, ns[i].kind) == Some(i)
    ensures forall j :: 0 <= j < |ns| && j != i ==> !SameAs(ns[j], ns[i].content, ns[i].kind)
  {
  }

  /** Registering a notification whose content and type are new keeps the registry free of duplicates. */
  lemma AddKeepsDistinct(ns: seq<Notification>, n: Notification)
    requires Distinct(ns) && Find(ns, n.content, n.kind).None?
    ensures Distinct(ns + [n])
    ensures Find(ns + [n], n.content, n.kind) == Some(|ns|)
  {
    var s := ns + [n];
    forall i, j | 0 <= i < j < |s|
      ensures !SameAs(s[j], s[i].content, s[i].kind)
    {
      if j == |s| - 1 {
        assert s[i] == ns[i] && !SameAs(ns[i], n.content, n.kind);
      } else {
        assert s[i] == ns[i] && s[j] == ns[j];
      }
    }
    assert SameAs(s[|ns|], n.content, n.kind);
    assert forall i :: 0 <= i < |ns| ==> s[i] == ns[i];
  }

  /** Closing a notification keeps the registry free of duplicates and keeps every other notification. */
  lemma {:induction false} CloseKeepsDistinct(ns: seq<Notification>, n: Notification)
    requires Distinct(ns)
    ensures Distinct(Without(ns, n))
    ensures n !in Without(ns, n)
    ensures forall m :: m in ns && m != n ==> m in Without(ns, n)
    decreases |ns|
  {
    if ns != [] {
      var prefix := ns[..|ns| - 1];
      CloseKeepsDistinct(prefix, n);
      var last := ns[|ns| - 1];
      if last != n {
        var r := Without(prefix, n);
        forall i | 0 <= i < |r|
          ensures !SameAs(last, r[i].content, r[i].kind)
        {
          var k :| 0 <= k < |prefix| && prefix[k] == r[i];
        }
      }
    }
  }

  class NotificationManager {
    /** The `nofifications` set, in insertion order. */
    var notifications: seq<Notification>

    predicate Valid()
      reads this
    {
      Distinct(notifications)
    }

    constructor()
      ensures Valid() && notifications == []
    {
      notifications := [];
    }

    /**
     * `_getNotification(content, type, ttl)`: the registered notification with
     * this content and type, re-armed, else a new one.
     */
    method GetNotification(content: Content, kind: Option<string>, ttl: int) returns (n: Notification)
      modifies notifications
      ensures var found := Find(notifications, content, kind);
        && (found.Some? ==> n == notifications[found.value] && n.timers == AfterSetTtl(old(n.timers), ttl))
        && (found.None? ==> fresh(n) && n.timers == Armed(ttl))
      ensures n.content == content && n.kind == kind
      ensures forall m :: m in notifications && m != n ==> m.timers == old(m.timers)
    {
      for i := 0 to |notifications|
        invariant forall k :: 0 <= k < i ==> !SameAs(notifications[k], content, kind)
      {
        if notifications[i].content == content && notifications[i].kind == kind {
          n := notifications[i];
          n.SetTtl(ttl);
          return;
        }
      }
      n := new Notification(content, kind, ttl);
    }

    /** `addNotification(content, type, ttl)` */
    method AddNotification(content: Content, kind: Option<string>, ttl: int)
      requires Valid()
      modifies this, notifications
      ensures Valid()
      ensures var found := Find(old(notifications), content, kind);
        && (found.Some? ==>
              && notifications == old(notifications)
              && notifications[found.value].timers == AfterSetTtl(old(notifications[found.value].timers), ttl))
        && (found.None? ==>
              && |notifications| == |old(notifications)| + 1
              && notifications[..|old(notifications)|] == old(notifications)
              && fresh(notifications[|old(notifications)|])
              && SameAs(notifications[|old(notifications)|], content, kind)
              && notifications[|old(notifications)|].timers == Armed(ttl))
      ensures forall m :: m in old(notifications) && !SameAs(m, content, kind) ==> m.timers == old(m.timers)
    {
      var n := GetNotification(content, kind, ttl);
      if n !in notifications {
        AddKeepsDistinct(notifications, n);
        notifications := notifications + [n];
      }
    }

    /** `closeNofication(notification)` */
    method CloseNotification(n: Notification)
      requires Valid()
      modifies this
      ensures Valid()
      ensures notifications == Without(old(notifications), n)
    {
      CloseKeepsDistinct(notifications, n);
      notifications := Without(notifications, n);
    }
  }
}
