/**
 * The three database tables the API handlers use (timers, users and work
 * sessions) and the store operations the handlers call on them. Row ids are
 * abstract: the model numbers rows in creation order.
 */
module Db {
  import opened Wrappers

  /** A running-timer marker: one row per user code. */
  datatype TimerRow = TimerRow(userCode: string, startTime: int)

  datatype UserRow = UserRow(id: nat, name: string, codeName: string)

  datatype WorkSession = WorkSession(id: nat, userId: nat, startTime: int, endTime: Option<int>)

  /** `timer.findUnique({ where: { user_code } })` */
  function FindTimer(timers: map<string, int>, userCode: string): (r: Option<TimerRow>)
    ensures r.Some? <==> userCode in timers
    ensures r.Some? ==> r.value == TimerRow(userCode, timers[userCode])
  {
    if userCode in timers then Some(TimerRow(userCode, timers[userCode])) else None
  }

  class TimerTable {
    var rows: map<string, int>

    constructor (rows: map<string, int>)
      ensures this.rows == rows
    {
      this.rows := rows;
    }

    /** `timer.upsert`: creates the row or overwrites its start time. */
    method Upsert(userCode: string, startTime: int) returns (row: TimerRow)
      modifies this
      ensures rows == old(rows)[userCode := startTime]
      ensures row == TimerRow(userCode, startTime)
    {
      rows := rows[userCode := startTime];
      row := TimerRow(userCode, startTime);
    }

    /** `timer.delete`: removes the row; fails (`ok` false) when there is none to delete. */
    method Delete(userCode: string) returns (ok: bool)
      modifies this
      ensures ok <==> userCode in old(rows)
      ensures rows == old(rows) - {userCode}
    {
      ok := userCode in rows;
      rows := rows - {userCode};
    }
  }

  /** No two users share a code, and every user's id is its position. */
  ghost predicate UsersValid(users: seq<UserRow>) {
    (forall i :: 0 <= i < |users| ==> users[i].id == i) &&
    (forall i, j :: 0 <= i < j < |users| ==> users[i].codeName != users[j].codeName)
  }

  /** `user.findUnique({ where: { code_name } })` */
  function FindUser(users: seq<UserRow>, codeName: string): (r: Option<UserRow>)
    ensures r.Some? <==> exists i :: 0 <= i < |users| && users[i].codeName == codeName
    ensures r.Some? ==> r.value in users && r.value.codeName == codeName
  {
    if users == [] then None
    else if users[0].codeName == codeName then Some(users[0])
    else
      var r := FindUser(users[1..], codeName);
      assert forall i :: 1 <= i < |users| ==> users[i] == users[1..][i - 1];
      r
  }

  class UserTable {
    var users: seq<UserRow>

    constructor (users: seq<UserRow>)
      ensures this.users == users
    {
      this.users := users;
    }

    /** `user.create`: fails (`None`) on a code already taken, the unique constraint. */
    method Create(name: string, codeName: string) returns (r: Option<UserRow>)
      modifies this
      ensures FindUser(old(users), codeName).Some? ==> r == None && users == old(users)
      ensures FindUser(old(users), codeName).None? ==>
        r == Some(UserRow(|old(users)|, name, codeName)) && users == old(users) + [r.value]
    {
      if FindUser(users, codeName).Some? {
        r := None;
      } else {
        var row := UserRow(|users|, name, codeName);
        users := users + [row];
        r := Some(row);
      }
    }
  }

  /** Creating a user with a fresh code keeps codes unique. */
  lemma CreateKeepsUsersValid(users: seq<UserRow>, name: string, codeName: string)
    requires UsersValid(users) && FindUser(users, codeName).None?
    ensures UsersValid(users + [UserRow(|users|, name, codeName)])
  {
    var users' := users + [UserRow(|users|, name, codeName)];
    forall i, j | 0 <= i < j < |users'| ensures users'[i].codeName != users'[j].codeName {
      if j == |users| {
        assert users'[i] == users[i];
      } else {
        assert users'[i] == users[i] && users'[j] == users[j];
      }
    }
  }

  /** The work sessions of one user, in table order. */
  function SessionsOfUser(rows: seq<WorkSession>, userId: nat): (r: seq<WorkSession>)
    ensures |r| <= |rows|
    ensures forall i :: 0 <= i < |r| ==> r[i].userId == userId && r[i] in rows
    ensures forall row :: row in rows && row.userId == userId ==> row in r
  {
    if rows == [] then []
    else (if rows[0].userId == userId then [rows[0]] else []) + SessionsOfUser(rows[1..], userId)
  }

  lemma {:induction false} SessionsOfUserAppend(rows: seq<WorkSession>, row: WorkSession, userId: nat)
    ensures SessionsOfUser(rows + [row], userId)
         == SessionsOfUser(rows, userId) + (if row.userId == userId then [row] else [])
    decreases |rows|
  {
    if rows == [] {
      assert [row][1..] == [];
    } else {
      assert (rows + [row])[1..] == rows[1..] + [row];
      SessionsOfUserAppend(rows[1..], row, userId);
    }
  }

  /** The autoincrement ids of the session table: each row's id is its position. */
  predicate SessionIdsArePositions(rows: seq<WorkSession>) {
    forall i :: 0 <= i < |rows| ==> rows[i].id == i
  }

  /** With positional ids, the next id is held by no existing row. */
  lemma NextSessionIdIsFresh(rows: seq<WorkSession>)
    requires SessionIdsArePositions(rows)
    ensures forall row :: row in rows ==> row.id < |rows|
  {
    forall row | row in rows ensures row.id < |rows| {
      var i :| 0 <= i < |rows| && rows[i] == row;
    }
  }

  /** Appending a row numbered `|rows|` keeps ids positional. */
  lemma CreateKeepsSessionIds(rows: seq<WorkSession>, userId: nat, startTime: int, endTime: Option<int>)
    ensures SessionIdsArePositions(rows) ==>
      SessionIdsArePositions(rows + [WorkSession(|rows|, userId, startTime, endTime)])
  {
  }

  class SessionTable {
    var rows: seq<WorkSession>

    constructor (rows: seq<WorkSession>)
      ensures this.rows == rows
    {
      this.rows := rows;
    }

    /** `workSession.create`: appends one row, numbered after the existing ones. */
    method Create(userId: nat, startTime: int, endTime: Option<int>) returns (row: WorkSession)
      modifies this
      ensures row == WorkSession(|old(rows)|, userId, startTime, endTime)
      ensures rows == old(rows) + [row]
      ensures SessionIdsArePositions(old(rows)) ==> SessionIdsArePositions(rows)
    {
      CreateKeepsSessionIds(rows, userId, startTime, endTime);
      row := WorkSession(|rows|, userId, startTime, endTime);
      rows := rows + [row];
    }
  }
}
