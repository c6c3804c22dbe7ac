/**
 * The `candidates` table, seen as a map from the auto-generated id to the
 * stored row. The three pages only ever insert a row, set its status,
 * delete it, look it up by id or look for a phone number, so the store
 * offers exactly those operations.
 */
module Store {
  import opened Php

  /** The nine columns the registration INSERT writes, in its column order. */
  datatype Profile = Profile(
    fullName: string,
    age: int,
    phoneNumber: string,
    gender: string,
    city: string,
    jobCategory: string,
    jobRole: string,
    yearsExperience: real,
    currentSalary: Option<real>)

  /** One row of `candidates`. `experienceRange` is filtered on by the
      dashboard but never written by the registration INSERT, so a freshly
      inserted row holds the column's default there, assumed NULL (no
      default in the table). Timestamps are the strings the database
      returns. */
  datatype Candidate = Candidate(
    id: int,
    profile: Profile,
    experienceRange: Option<string>,
    status: string,
    createdAt: string,
    updatedAt: string)

  /** The status column's default for a new row. */
  const DefaultStatus: string := "active"

  /** The row the database creates for an INSERT of `profile` at time `now`:
      the id it generated, and the columns the INSERT leaves out at their
      assumed defaults: status `active`, NULL experience range, and both
      timestamps set to the insertion time. */
  function NewCandidate(id: int, profile: Profile, now: string): (c: Candidate)
    ensures c.id == id && c.profile == profile && c.status == DefaultStatus
    ensures c.createdAt == c.updatedAt && c.experienceRange.None?
  {
    Candidate(id, profile, None, DefaultStatus, now, now)
  }

  /** `SELECT id FROM candidates WHERE phone_number = ?` finds a row. */
  predicate PhoneTaken(rows: map<int, Candidate>, phone: string) {
    exists id :: id in rows && rows[id].profile.phoneNumber == phone
  }

  /** After an insert under an unused id, the phone look-up finds exactly
      the phones it found before plus the new row's. */
  lemma PhoneTakenAfterInsert(rows: map<int, Candidate>, c: Candidate, phone: string)
    requires c.id !in rows
    ensures PhoneTaken(rows[c.id := c], phone) <==> PhoneTaken(rows, phone) || c.profile.phoneNumber == phone
  {
    var r := rows[c.id := c];
    if PhoneTaken(rows, phone) {
      var id :| id in rows && rows[id].profile.phoneNumber == phone;
      assert r[id] == rows[id];
    }
    if c.profile.phoneNumber == phone {
      assert r[c.id] == c;
    }
    if PhoneTaken(r, phone) && c.profile.phoneNumber != phone {
      var id :| id in r && r[id].profile.phoneNumber == phone;
      assert id != c.id && id in rows;
    }
  }

  /** After a delete, the phone look-up finds exactly the phones of the
      rows that remain. */
  lemma PhoneTakenAfterRemove(rows: map<int, Candidate>, id: int, phone: string)
    requires id in rows && PhonesDistinct(rows)
    ensures PhoneTaken(rows - {id}, phone) <==> PhoneTaken(rows, phone) && rows[id].profile.phoneNumber != phone
  {
    var r := rows - {id};
    if PhoneTaken(r, phone) {
      var k :| k in r && r[k].profile.phoneNumber == phone;
      assert k in rows && k != id;
    }
    if PhoneTaken(rows, phone) && rows[id].profile.phoneNumber != phone {
      var k :| k in rows && rows[k].profile.phoneNumber == phone;
      assert k != id && k in r;
    }
  }

  /** No two rows share a phone number. */
  ghost predicate PhonesDistinct(rows: map<int, Candidate>) {
    forall i, j :: i in rows && j in rows && i != j ==>
      rows[i].profile.phoneNumber != rows[j].profile.phoneNumber
  }

  /** The table after `UPDATE candidates SET status = ? WHERE id = ?`. */
  function WithStatus(rows: map<int, Candidate>, id: int, status: string): (r: map<int, Candidate>)
    ensures r.Keys == rows.Keys
    ensures forall k :: k in rows && k != id ==> r[k] == rows[k]
    ensures id in rows ==> r[id] == rows[id].(status := status)
  {
    if id in rows then rows[id := rows[id].(status := status)] else rows
  }

  /** Setting a status never changes a phone number, so it keeps phones distinct. */
  lemma WithStatusKeepsPhonesDistinct(rows: map<int, Candidate>, id: int, status: string)
    requires PhonesDistinct(rows)
    ensures PhonesDistinct(WithStatus(rows, id, status))
  {
    var r := WithStatus(rows, id, status);
    forall i, j | i in r && j in r && i != j
      ensures r[i].profile.phoneNumber != r[j].profile.phoneNumber
    {
      assert r[i].profile == rows[i].profile && r[j].profile == rows[j].profile;
    }
  }

  /** Inserting a row whose phone is not yet in the table, under an id not
      yet used, keeps phones distinct. */
  lemma InsertKeepsPhonesDistinct(rows: map<int, Candidate>, c: Candidate)
    requires PhonesDistinct(rows)
    requires c.id !in rows && !PhoneTaken(rows, c.profile.phoneNumber)
    ensures PhonesDistinct(rows[c.id := c])
  {
    var r := rows[c.id := c];
    forall i, j | i in r && j in r && i != j
      ensures r[i].profile.phoneNumber != r[j].profile.phoneNumber
    {
      if i == c.id {
        assert j in rows;
      } else if j == c.id {
        assert i in rows;
      }
    }
  }

  /** The table, with the AUTO_INCREMENT counter that hands out ids. */
  class CandidateStore {
    var rows: map<int, Candidate>
    var nextId: int

    /** Ids start at 1, every row sits under its own id, and the counter is
        past every id handed out so far. */
    ghost predicate Valid()
      reads this
    {
      && nextId >= 1
      && forall id :: id in rows ==> 1 <= id < nextId && rows[id].id == id
    }

    constructor ()
      ensures Valid() && rows == map[] && nextId == 1
    {
      rows := map[];
      nextId := 1;
    }

    /** `INSERT INTO candidates (...) VALUES (...)`: a new row under the next id. */
    method Insert(profile: Profile, now: string) returns (id: int)
      requires Valid()
      modifies this
      ensures Valid()
      ensures id == old(nextId) && id >= 1 && id !in old(rows)
      ensures rows == old(rows)[id := NewCandidate(id, profile, now)]
      ensures |rows| == |old(rows)| + 1
      ensures nextId == old(nextId) + 1
    {
      id := nextId;
      rows := rows[id := NewCandidate(id, profile, now)];
      nextId := nextId + 1;
    }

    /** `UPDATE candidates SET status = ? WHERE id = ?`: no row matched is not an error. */
    method SetStatus(id: int, status: string)
      requires Valid()
      modifies this
      ensures Valid()
      ensures rows == WithStatus(old(rows), id, status) && nextId == old(nextId)
    {
      rows := WithStatus(rows, id, status);
    }

    /** `DELETE FROM candidates WHERE id = ?`: no row matched is not an error. */
    method Remove(id: int)
      requires Valid()
      modifies this
      ensures Valid()
      ensures rows == old(rows) - {id} && nextId == old(nextId)
    {
      rows := rows - {id};
    }
  }
}
