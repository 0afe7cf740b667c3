/** The alert table and the alert service: append an alert for a kid, read a
    parent's alerts newest first. */
module Alerts {
  import opened Common

  /** A row of the alert table. Rows are only ever appended. */
  datatype Alert = Alert(id: Id, kidId: Id, message: string, createdAt: int)

  function AlertId(a: Alert): Id { a.id }

  /** Ordered by `createdAt`, newest first. */
  predicate NewestFirst(s: seq<Alert>)
  {
    forall i, j :: 0 <= i < j < |s| ==> s[i].createdAt >= s[j].createdAt
  }

  /** Puts `a` into a newest-first sequence, before every alert that is not
      newer than it. */
  function InsertNewestFirst(a: Alert, s: seq<Alert>): (r: seq<Alert>)
    requires NewestFirst(s)
    ensures NewestFirst(r)
    ensures multiset(r) == multiset(s) + multiset{a}
    ensures |r| == |s| + 1 && (r[0] == a || (s != [] && r[0] == s[0]))
  {
    if s == [] || a.createdAt >= s[0].createdAt then [a] + s
    else
      var t := InsertNewestFirst(a, s[1..]);
      assert s == [s[0]] + s[1..];
      [s[0]] + t
  }

  /** `order: { createdAt: 'DESC' }`: the same alerts, newest first. */
  function SortNewestFirst(s: seq<Alert>): (r: seq<Alert>)
    ensures NewestFirst(r)
    ensures multiset(r) == multiset(s)
  {
    if s == [] then []
    else
      assert s == [s[0]] + s[1..];
      InsertNewestFirst(s[0], SortNewestFirst(s[1..]))
  }

  /** `getAlertsForParent`: every alert of one of the given kids, and only
      those, each as often as stored, newest first. */
  function GetAlertsForParent(rows: seq<Alert>, kidIds: seq<Id>): (r: seq<Alert>)
    ensures NewestFirst(r)
    ensures forall a :: multiset(r)[a] == if a.kidId in kidIds then multiset(rows)[a] else 0
    ensures forall a :: a in r <==> a in rows && a.kidId in kidIds
  {
    var matching := Filter(rows, (a: Alert) => a.kidId in kidIds);
    var r := SortNewestFirst(matching);
    assert forall a :: a in r <==> a in multiset(r);
    r
  }

  /** No kids, no alerts. */
  lemma NoKidsNoAlerts(rows: seq<Alert>)
    ensures GetAlertsForParent(rows, []) == []
  {
    var r := GetAlertsForParent(rows, []);
    assert multiset(r) == multiset{};
  }

  /** The alert service with the table it owns. */
  class AlertService {
    var rows: seq<Alert>
    var nextId: Id

    ghost predicate Valid()
      reads this
    {
      KeysFresh(rows, AlertId, nextId)
    }

    constructor ()
      ensures Valid() && rows == []
    {
      rows, nextId := [], 0;
    }

    /** `createAlert`: appends one alert for the kid with the message,
        stamped with the clock; existing alerts are untouched. */
    method CreateAlert(kidId: Id, message: string, now: int) returns (alert: Alert)
      requires Valid()
      modifies this
      ensures Valid()
      ensures rows == old(rows) + [alert] && alert.id == old(nextId) && nextId == old(nextId) + 1
      ensures alert.kidId == kidId && alert.message == message && alert.createdAt == now
    {
      alert := Alert(nextId, kidId, message, now);
      AppendKeepsKeysFresh(rows, AlertId, nextId, alert);
      rows := rows + [alert];
      nextId := nextId + 1;
    }
  }

  /** A new alert is seen by a parent whose kid list contains its kid, and
      by no other parent. */
  lemma NewAlertVisible(rows: seq<Alert>, alert: Alert, kidIds: seq<Id>)
    ensures alert in GetAlertsForParent(rows + [alert], kidIds) <==> alert.kidId in kidIds
  {
    assert alert in rows + [alert];
  }
}
