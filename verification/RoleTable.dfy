/**
 The two database tables MySQLConnector.cpp works on: members by mcode, and each member's role in a
 meeting. The queries become look-ups and updates of existing rows.
 */
module RoleTable {
  import opened Bytes
  import opened ClientTable
  import opened MeetingNumber
  import opened Base64

  datatype Db = Db(members: map<Str, int>, roles: map<(Str, int), nat>)

  /** The participant row of a member in the meeting its code names. */
  function RowOf(db: Db, mcode: Str, mscode: string): Option<(Str, int)> {
    var meeting := MeetingOf(mscode);
    if mcode in db.members && meeting.Some? && (meeting.value, db.members[mcode]) in db.roles
    then Some((meeting.value, db.members[mcode]))
    else None
  }

  /** The role isSuited finds; None when it answers false. */
  function RoleOf(db: Db, mcode: Str, mscode: string): Option<nat> {
    match RowOf(db, mcode, mscode)
    case None => None
    case Some(row) => Some(db.roles[row])
  }

  function UpdateRole(db: Db, mcode: Str, mscode: string, role: nat): Db {
    match RowOf(db, mcode, mscode)
    case None => db
    case Some(row) => db.(roles := db.roles[row := role])
  }

  function ChangeAuth(db: Db, dst: Str, authority: bool, mscode: string): Db {
    UpdateRole(db, dst, mscode, if authority then 1 else 2)
  }

  function ChangeChief(db: Db, src: Str, dst: Str, mscode: string): Db {
    UpdateRole(UpdateRole(db, src, mscode, 1), dst, mscode, 0)
  }

  /** mnum identifies a member. */
  ghost predicate OneMemberPerNumber(db: Db) {
    forall a, b :: a in db.members && b in db.members && db.members[a] == db.members[b] ==> a == b
  }

  /** No meeting has two rows with role 0. */
  ghost predicate OneChiefRow(db: Db) {
    forall a, b :: a in db.roles && b in db.roles && a.0 == b.0 && db.roles[a] == 0 && db.roles[b] == 0 ==> a == b
  }

  /** The look-up for an encoded code answers with the member's row in the meeting numbered in front of "from". */
  lemma RoleByNumber(db: Db, mcode: Str, number: Str, rest: Str)
    requires |number| <= 9 && 0 !in number && forall i :: 0 <= i ==> !FromAt(number, i)
    ensures RoleOf(db, mcode, Encode(number + FROM + rest))
            == if mcode in db.members && (number, db.members[mcode]) in db.roles
               then Some(db.roles[(number, db.members[mcode])]) else None
  {
    MeetingRecoveredIff(number, rest);
  }

  /** An update is seen by its own member in its own meeting, and by nobody else. */
  lemma UpdateSeenBy(db: Db, mcode: Str, mscode: string, role: nat, other: Str, otherMs: string)
    requires OneMemberPerNumber(db)
    ensures var db' := UpdateRole(db, mcode, mscode, role);
            db'.members == db.members && db'.roles.Keys == db.roles.Keys
            && RoleOf(db', other, otherMs)
               == if other == mcode && MeetingOf(otherMs) == MeetingOf(mscode) && RoleOf(db, mcode, mscode).Some?
                  then Some(role) else RoleOf(db, other, otherMs)
  {
  }

  /** Handing the role on keeps one chief row per meeting when the giver holds it. */
  lemma ChangeChiefKeepsOneChief(db: Db, src: Str, dst: Str, mscode: string)
    requires OneMemberPerNumber(db) && OneChiefRow(db) && RoleOf(db, src, mscode) == Some(0)
    ensures OneChiefRow(ChangeChief(db, src, dst, mscode))
  {
  }
}
