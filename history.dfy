/**
 * The `history` table: one row per applied migration, `version int primary key, file varchar,
 * timestamp timestamp`. The queries the engine runs on it are functions over the list of rows.
 */
module History {
  import opened Results
  import opened Sequences

  /** One row of the history table. The timestamp is an opaque instant. */
  datatype Row = Row(version: int, file: string, timestamp: int)

  /** Some row records `file`. */
  predicate HasFile(rows: seq<Row>, file: string) {
    exists i :: 0 <= i < |rows| && rows[i].file == file
  }

  /** Some row carries `version`. */
  predicate HasVersion(rows: seq<Row>, version: int) {
    exists i :: 0 <= i < |rows| && rows[i].version == version
  }

  /** The primary key holds: no two rows share a version. */
  predicate UniqueVersions(rows: seq<Row>) {
    forall i, j :: 0 <= i < j < |rows| ==> rows[i].version != rows[j].version
  }

  /** SELECT COUNT(*) FROM history WHERE file = ? */
  function CountFile(rows: seq<Row>, file: string): (n: nat)
    ensures n <= |rows|
    ensures n > 0 <==> HasFile(rows, file)
  {
    if rows == [] then 0
    else
      var rest := CountFile(rows[1..], file);
      assert HasFile(rows, file) <==> rows[0].file == file || HasFile(rows[1..], file) by {
        if HasFile(rows[1..], file) {
          var i :| 0 <= i < |rows[1..]| && rows[1..][i].file == file;
          assert rows[i + 1].file == file;
        }
        if HasFile(rows, file) && rows[0].file != file {
          var i :| 0 <= i < |rows| && rows[i].file == file;
          assert rows[1..][i - 1].file == file;
        }
      }
      (if rows[0].file == file then 1 else 0) + rest
  }

  /** SELECT max(version) FROM history, read with getInt: the NULL of an empty table reads as 0. */
  function MaxVersion(rows: seq<Row>): (m: int)
    ensures rows == [] ==> m == 0
    ensures forall i :: 0 <= i < |rows| ==> rows[i].version <= m
    ensures rows != [] ==> HasVersion(rows, m)
  {
    if rows == [] then 0
    else if |rows| == 1 then rows[0].version
    else
      var rest := MaxVersion(rows[1..]);
      assert forall i :: 1 <= i < |rows| ==> rows[i] == rows[1..][i - 1];
      if rows[0].version >= rest then rows[0].version
      else
        var k :| 0 <= k < |rows[1..]| && rows[1..][k].version == rest;
        assert rows[k + 1].version == rest;
        rest
  }

  /** The three properties of MaxVersion determine it: any value with them is the maximum. */
  lemma MaxVersionUnique(rows: seq<Row>, m: int)
    requires rows == [] ==> m == 0
    requires forall i :: 0 <= i < |rows| ==> rows[i].version <= m
    requires rows != [] ==> HasVersion(rows, m)
    ensures m == MaxVersion(rows)
  {
    if rows != [] {
      var i :| 0 <= i < |rows| && rows[i].version == m;
      var k :| 0 <= k < |rows| && rows[k].version == MaxVersion(rows);
    }
  }

  /** INSERT INTO history VALUES (?, ?, ?): refused (an SQLException) when the version is taken. */
  function Insert(rows: seq<Row>, row: Row): (r: Option<seq<Row>>)
    ensures r.None? <==> HasVersion(rows, row.version)
    ensures r.Some? ==> r.value == rows + [row]
  {
    if HasVersion(rows, row.version) then None else Some(rows + [row])
  }

  /** DELETE FROM history WHERE file = ?: the other rows, in their order. */
  function WithoutFile(rows: seq<Row>, file: string): (r: seq<Row>)
    ensures |r| <= |rows|
    ensures forall i :: 0 <= i < |r| ==> r[i].file != file
    ensures forall x :: x in r ==> x in rows
  {
    if rows == [] then []
    else
      var rest := WithoutFile(rows[1..], file);
      if rows[0].file == file then rest else [rows[0]] + rest
  }

  // ---------------------------------------------------------------------------
  // Properties of the ledger operations

  /** The delete keeps every row of another file: it removes exactly the rows of `file`. */
  lemma {:induction false} WithoutFileKeepsOthers(rows: seq<Row>, file: string, i: nat)
    requires i < |rows| && rows[i].file != file
    ensures rows[i] in WithoutFile(rows, file)
  {
    if i > 0 {
      WithoutFileKeepsOthers(rows[1..], file, i - 1);
    }
  }

  /** Every row left by the delete was already in the ledger. */
  lemma {:induction false} WithoutFileFrom(rows: seq<Row>, file: string, i: nat)
    requires i < |WithoutFile(rows, file)|
    ensures exists k :: 0 <= k < |rows| && rows[k] == WithoutFile(rows, file)[i]
  {
    var x := WithoutFile(rows, file)[i];
    if rows[0].file == file {
      WithoutFileFrom(rows[1..], file, i);
      var k :| 0 <= k < |rows[1..]| && rows[1..][k] == x;
      assert rows[k + 1] == x;
    } else if i > 0 {
      WithoutFileFrom(rows[1..], file, i - 1);
      var k :| 0 <= k < |rows[1..]| && rows[1..][k] == x;
      assert rows[k + 1] == x;
    } else {
      assert rows[0] == x;
    }
  }

  /** A row survives the delete exactly when it was there and belongs to another file. */
  lemma WithoutFileMembers(rows: seq<Row>, file: string, row: Row)
    ensures row in WithoutFile(rows, file) <==> row in rows && row.file != file
  {
    var r := WithoutFile(rows, file);
    if row in r {
      var i :| 0 <= i < |r| && r[i] == row;
      WithoutFileFrom(rows, file, i);
    }
    if row in rows && row.file != file {
      var i :| 0 <= i < |rows| && rows[i] == row;
      WithoutFileKeepsOthers(rows, file, i);
    }
  }

  /** Deleting the rows of a file never breaks the primary key. */
  lemma WithoutFileKeepsUnique(rows: seq<Row>, file: string)
    requires UniqueVersions(rows)
    ensures UniqueVersions(WithoutFile(rows, file))
  {
    var r := WithoutFile(rows, file);
    forall i, j | 0 <= i < j < |r| ensures r[i].version != r[j].version {
      DistinctPositions(rows, file, i, j);
    }
  }

  lemma {:induction false} DistinctPositions(rows: seq<Row>, file: string, i: nat, j: nat)
    requires UniqueVersions(rows)
    requires i < j < |WithoutFile(rows, file)|
    ensures WithoutFile(rows, file)[i].version != WithoutFile(rows, file)[j].version
  {
    var rest := WithoutFile(rows[1..], file);
    assert UniqueVersions(rows[1..]) by {
      forall a, b | 0 <= a < b < |rows[1..]| ensures rows[1..][a].version != rows[1..][b].version {
        assert rows[1..][a] == rows[a + 1] && rows[1..][b] == rows[b + 1];
      }
    }
    if rows[0].file == file {
      DistinctPositions(rows[1..], file, i, j);
    } else if i == 0 {
      var x := rest[j - 1];
      WithoutFileFrom(rows[1..], file, j - 1);
      var k :| 0 <= k < |rows[1..]| && rows[1..][k] == x;
      assert rows[k + 1] == x;
    } else {
      DistinctPositions(rows[1..], file, i - 1, j - 1);
    }
  }

  /** An accepted insert keeps the primary key. */
  lemma InsertKeepsUnique(rows: seq<Row>, row: Row)
    requires UniqueVersions(rows)
    requires Insert(rows, row).Some?
    ensures UniqueVersions(Insert(rows, row).value)
  {
    var r := rows + [row];
    forall i, j | 0 <= i < j < |r| ensures r[i].version != r[j].version {
      if j == |rows| {
        assert r[i] == rows[i];
        assert !HasVersion(rows, row.version);
      }
    }
  }

  /** After inserting a row, the files recorded are the old ones plus the new row's file. */
  lemma HasFileAfterInsert(rows: seq<Row>, row: Row, file: string)
    ensures HasFile(rows + [row], file) <==> HasFile(rows, file) || row.file == file
  {
    var r := rows + [row];
    if HasFile(rows, file) {
      var i :| 0 <= i < |rows| && rows[i].file == file;
      assert r[i].file == file;
    }
    if row.file == file {
      assert r[|rows|].file == file;
    }
    if HasFile(r, file) && row.file != file {
      var i :| 0 <= i < |r| && r[i].file == file;
      assert rows[i].file == file;
    }
  }

  /** Recording a migration and then deleting its file gives back the ledger it started from. */
  lemma {:induction false} InsertThenDelete(rows: seq<Row>, row: Row)
    requires !HasFile(rows, row.file)
    requires Insert(rows, row).Some?
    ensures WithoutFile(Insert(rows, row).value, row.file) == rows
  {
    if rows == [] {
      assert [] + [row] == [row];
    } else {
      forall i | 0 <= i < |rows[1..]| ensures rows[1..][i].file != row.file && rows[1..][i].version != row.version {
        assert rows[1..][i] == rows[i + 1];
      }
      assert rows[0].file != row.file;
      InsertThenDelete(rows[1..], row);
      assert (rows + [row])[1..] == rows[1..] + [row];
      ConsOfTail(rows);
    }
  }
}
