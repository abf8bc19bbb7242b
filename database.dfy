/**
 * The attendance store: table `attendance` of an SQLite file, held in memory.
 * The table is created on demand, rows are only ever appended, and each row gets
 * the next value of an AUTOINCREMENT counter as its id. The users file of the
 * login check is a sequence of (username, password) entries, or absent.
 */
module Database {
  import opened Outcome

  /** One row of `attendance`, fields in the column order of the table. */
  datatype Row = Row(
    id: int,
    heure: string,
    sixieme: int,
    cinquieme: int,
    quatrieme: int,
    troisieme: int,
    total: int,
    date: string)

  /** Ids strictly increase in insertion order, hence no id occurs twice. */
  predicate IdsIncreasing(rows: seq<Row>) {
    forall i, j | 0 <= i < j < |rows| :: rows[i].id < rows[j].id
  }

  class AttendanceStore {
    /** Whether table `attendance` exists in the database file. */
    var tableExists: bool
    /** The rows of the table, in insertion order. */
    var rows: seq<Row>
    /** The id the next insertion receives (one past the AUTOINCREMENT sequence). */
    var nextId: int

    ghost predicate Valid()
      reads this
    {
      && nextId >= 1
      && (!tableExists ==> rows == [])
      && IdsIncreasing(rows)
      && (forall i | 0 <= i < |rows| :: 1 <= rows[i].id < nextId)
    }

    /** A database file in which the table has not been created yet. */
    constructor ()
      ensures Valid()
      ensures !tableExists && rows == [] && nextId == 1
    {
      tableExists, rows, nextId := false, [], 1;
    }

    /** `init_db`: CREATE TABLE IF NOT EXISTS; existing rows and the id counter are kept. */
    method InitDb()
      requires Valid()
      modifies this
      ensures Valid()
      ensures tableExists
      ensures rows == old(rows) && nextId == old(nextId)
    {
      tableExists := true;
    }

    /**
     * `add_attendance`: inserts one row carrying the seven given values, `total` included
     * as given (it is not checked against the grade counts). Fails, changing nothing,
     * when the table does not exist.
     */
    method AddAttendance(heure: string, sixieme: int, cinquieme: int, quatrieme: int,
                         troisieme: int, total: int, date: string) returns (r: Result<int>)
      requires Valid()
      modifies this
      ensures Valid()
      ensures tableExists == old(tableExists)
      ensures r.Ok? <==> old(tableExists)
      ensures r.Err? ==> r.error == TableMissing && rows == old(rows) && nextId == old(nextId)
      ensures r.Ok? ==> r.value == old(nextId) && nextId == old(nextId) + 1
      ensures r.Ok? ==> rows == old(rows) + [Row(r.value, heure, sixieme, cinquieme, quatrieme, troisieme, total, date)]
      ensures r.Ok? ==> forall i | 0 <= i < |old(rows)| :: old(rows)[i].id < r.value
    {
      if !tableExists {
        return Err(TableMissing);
      }
      var id := nextId;
      rows := rows + [Row(id, heure, sixieme, cinquieme, quatrieme, troisieme, total, date)];
      nextId := nextId + 1;
      r := Ok(id);
    }

    /** `get_all_attendance`: every row, in insertion order; reads only. */
    method GetAllAttendance() returns (r: Result<seq<Row>>)
      requires Valid()
      ensures r.Ok? <==> tableExists
      ensures r.Ok? ==> r.value == rows && IdsIncreasing(r.value)
      ensures r.Err? ==> r.error == TableMissing
    {
      if !tableExists {
        return Err(TableMissing);
      }
      r := Ok(rows);
    }
  }

  /** One entry of the users file. */
  datatype User = User(username: string, password: string)

  /**
   * `authenticate`: false when the users file is absent; otherwise a scan of the entries
   * that stops at the first one whose username and password both equal the given ones.
   * The password is compared as plain text.
   */
  method Authenticate(usersFile: Option<seq<User>>, username: string, password: string) returns (ok: bool)
    ensures usersFile.None? ==> !ok
    ensures usersFile.Some? ==>
      (ok <==> exists i | 0 <= i < |usersFile.value| :: usersFile.value[i] == User(username, password))
  {
    if usersFile.None? {
      return false;
    }
    var users := usersFile.value;
    var i := 0;
    while i < |users|
      invariant 0 <= i <= |users|
      invariant forall j | 0 <= j < i :: users[j] != User(username, password)
    {
      if users[i].username == username && users[i].password == password {
        return true;
      }
      i := i + 1;
    }
    return false;
  }
}
