/** The kid-status table and the status service: a kid reports "I am safe";
    a parent reads the statuses of their kids. */
module Status {
  import opened Common
  import opened Users

  /** A row of the kid-status table. `isSafe` defaults to false and
      `updatedAt` to null when a row is created. */
  datatype KidStatus = KidStatus(id: Id, kidId: Id, isSafe: bool, updatedAt: Option<int>)

  function StatusId(s: KidStatus): Id { s.id }

  /** No kid has two status rows. */
  predicate OneRowPerKid(rows: seq<KidStatus>)
  {
    forall i, j :: 0 <= i < j < |rows| ==> rows[i].kidId != rows[j].kidId
  }

  /** The position of the kid's row, if it has one (`findOne({ where: { kidId } })`). */
  function RowOfKid(rows: seq<KidStatus>, kidId: Id): (r: Option<nat>)
    ensures r.None? <==> forall i :: 0 <= i < |rows| ==> rows[i].kidId != kidId
    ensures r.Some? ==> r.value < |rows| && rows[r.value].kidId == kidId
  {
    if rows == [] then None
    else if rows[0].kidId == kidId then Some(0)
    else
      match RowOfKid(rows[1..], kidId)
      case None => None
      case Some(i) => Some(i + 1)
  }

  /** The table after `markSafe(kidId)` at time `now`, `freshId` being the
      key a new row would get: the kid's row, found or created, with
      `isSafe` set and `updatedAt` stamped. */
  function MarkedSafe(rows: seq<KidStatus>, kidId: Id, now: int, freshId: Id): (r: seq<KidStatus>)
    ensures |rows| <= |r| <= |rows| + 1
    ensures forall i :: 0 <= i < |rows| ==> r[i].id == rows[i].id && r[i].kidId == rows[i].kidId
    ensures exists i :: 0 <= i < |r| && r[i].kidId == kidId && r[i].isSafe && r[i].updatedAt == Some(now)
  {
    match RowOfKid(rows, kidId)
    case Some(i) =>
      var r := rows[i := rows[i].(isSafe := true, updatedAt := Some(now))];
      assert r[i].kidId == kidId;
      r
    case None =>
      var r := rows + [KidStatus(freshId, kidId, true, Some(now))];
      assert r[|rows|].kidId == kidId;
      r
  }

  /** After `markSafe` the kid has exactly one row, safe and stamped with
      `now`; it is the old row when there was one, else a new row at the end. */
  lemma MarkSafeSetsRow(rows: seq<KidStatus>, kidId: Id, now: int, freshId: Id)
    requires OneRowPerKid(rows)
    ensures var r := MarkedSafe(rows, kidId, now, freshId);
      && OneRowPerKid(r)
      && (exists i :: 0 <= i < |r| && r[i].kidId == kidId && r[i].isSafe && r[i].updatedAt == Some(now))
      && (RowOfKid(rows, kidId).None? ==> |r| == |rows| + 1 && r[|rows|] == KidStatus(freshId, kidId, true, Some(now)))
      && (RowOfKid(rows, kidId).Some? ==> |r| == |rows| && r[RowOfKid(rows, kidId).value].id == rows[RowOfKid(rows, kidId).value].id)
  {
    var r := MarkedSafe(rows, kidId, now, freshId);
    match RowOfKid(rows, kidId)
    case Some(i) =>
      assert r[i].kidId == kidId;
    case None =>
      assert r[|rows|].kidId == kidId;
  }

  /** `markSafe` touches no other kid's row, and never turns a safe row unsafe. */
  lemma MarkSafeOthersUnchanged(rows: seq<KidStatus>, kidId: Id, now: int, freshId: Id)
    ensures var r := MarkedSafe(rows, kidId, now, freshId);
      && |rows| <= |r|
      && (forall i :: 0 <= i < |rows| && rows[i].kidId != kidId ==> r[i] == rows[i])
      && (forall i :: 0 <= i < |rows| && rows[i].isSafe ==> r[i].isSafe)
  {
    match RowOfKid(rows, kidId)
    case Some(j) =>
    case None =>
  }

  /** Marking the same kid safe twice leaves as many rows as marking once. */
  lemma MarkSafeTwiceSameCount(rows: seq<KidStatus>, kidId: Id, t1: int, t2: int, f1: Id, f2: Id)
    ensures |MarkedSafe(MarkedSafe(rows, kidId, t1, f1), kidId, t2, f2)| == |MarkedSafe(rows, kidId, t1, f1)|
  {
    var once := MarkedSafe(rows, kidId, t1, f1);
    match RowOfKid(rows, kidId)
    case Some(i) =>
      assert once[i].kidId == kidId;
    case None =>
      assert once[|rows|].kidId == kidId;
  }

  /** `getAllStatuses`: exactly the rows whose kid is one of the parent's kids. */
  function GetAllStatuses(rows: seq<KidStatus>, users: seq<User>, parentId: Id): (r: seq<KidStatus>)
    ensures forall s :: s in r <==> s in rows && exists u :: u in users && u.parentId == Some(parentId) && u.id == s.kidId
    ensures forall s :: multiset(r)[s] ==
              if exists u :: u in users && u.parentId == Some(parentId) && u.id == s.kidId
              then multiset(rows)[s] else 0
  {
    var kidIds := IdsOf(GetParentKids(users, parentId));
    Filter(rows, (s: KidStatus) => s.kidId in kidIds)
  }

  /** Once a kid of the parent is marked safe, the parent's statuses show
      that kid safe, stamped with the time of marking. */
  lemma MarkedKidVisibleToParent(rows: seq<KidStatus>, users: seq<User>, kid: User, now: int, freshId: Id)
    requires OneRowPerKid(rows)
    requires kid in users && kid.parentId.Some?
    ensures exists s :: && s in GetAllStatuses(MarkedSafe(rows, kid.id, now, freshId), users, kid.parentId.value)
                        && s.kidId == kid.id && s.isSafe && s.updatedAt == Some(now)
  {
    var r := MarkedSafe(rows, kid.id, now, freshId);
    MarkSafeSetsRow(rows, kid.id, now, freshId);
    var i :| 0 <= i < |r| && r[i].kidId == kid.id && r[i].isSafe && r[i].updatedAt == Some(now);
    assert r[i] in r;
  }

  /** The status service with the table it owns. */
  class StatusService {
    var rows: seq<KidStatus>
    var nextId: Id

    ghost predicate Valid()
      reads this
    {
      KeysFresh(rows, StatusId, nextId) && OneRowPerKid(rows)
    }

    constructor ()
      ensures Valid() && rows == []
    {
      rows, nextId := [], 0;
    }

    /** `markSafe`: find the kid's row or create one, set `isSafe`, stamp
        `updatedAt` with the clock, and save. Returns the saved row. */
    method MarkSafe(kidId: Id, now: int) returns (status: KidStatus)
      requires Valid()
      modifies this
      ensures Valid()
      ensures rows == MarkedSafe(old(rows), kidId, now, old(nextId))
      ensures status in rows && status.kidId == kidId && status.isSafe && status.updatedAt == Some(now)
      ensures nextId == if RowOfKid(old(rows), kidId).None? then old(nextId) + 1 else old(nextId)
    {
      var found := RowOfKid(rows, kidId);
      if found.None? {
        status := KidStatus(nextId, kidId, false, None);
      } else {
        status := rows[found.value];
      }
      status := status.(isSafe := true);
      status := status.(updatedAt := Some(now));
      MarkSafeSetsRow(rows, kidId, now, nextId);
      if found.None? {
        AppendKeepsKeysFresh(rows, StatusId, nextId, status);
        rows := rows + [status];
        nextId := nextId + 1;
      } else {
        var i := found.value;
        assert forall j :: 0 <= j < |rows| ==> rows[i := status][j].id == rows[j].id;
        rows := rows[i := status];
      }
    }
  }
}
