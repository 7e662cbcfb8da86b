/**
 * The `user` table and the statements the core runs against it. Rows are kept in ascending
 * `id_user` order, the primary-key order in which the table is scanned, so "the first row
 * of a result" is the matching row with the smallest id.
 */
module Users {
  import opened Common
  import opened JsString

  datatype UserRow = UserRow(
    id: int,
    idUserType: int,
    names: string,
    surnames: string,
    email: string,
    password: string,
    accountNumber: Option<string>)

  /** Ids strictly ascending: the primary key holds and rows appear in key order. */
  ghost predicate Ordered(rows: seq<UserRow>)
  {
    forall i, j :: 0 <= i < j < |rows| ==> rows[i].id < rows[j].id
  }

  /** `email.trim().toLowerCase()`, the form in which emails are stored and looked up. */
  function NormalizeEmail(email: string): (r: string)
    ensures |r| <= |email|
    ensures r == [] || (!IsWhiteSpace(r[0]) && !IsWhiteSpace(r[|r| - 1]))
    ensures forall i :: 0 <= i < |r| ==> !IsUpper(r[i])
    ensures exists a, b :: WhiteOutside(email, a, b) && r == ToLowerCase(email[a..b])
  {
    ToLowerCase(Trim(email))
  }

  /** Normalising a stored email again leaves it as it is. */
  lemma NormalizeIdempotent(email: string)
    ensures NormalizeEmail(NormalizeEmail(email)) == NormalizeEmail(email)
  {
    var t := Trim(email);
    TrimLowerCommute(t);
    TrimIdempotent(email);
    ToLowerCaseIdempotent(t);
  }

  /** `select ... where p(row)`: the matching rows, in table order. */
  function Where(rows: seq<UserRow>, p: UserRow -> bool): (r: seq<UserRow>)
    ensures |r| <= |rows|
    ensures forall x :: x in r <==> x in rows && p(x)
    ensures forall i :: 0 <= i < |r| ==> p(r[i])
    ensures r != [] ==> exists i :: 0 <= i < |rows| && rows[i] == r[0] && forall j :: 0 <= j < i ==> !p(rows[j])
  {
    if rows == [] then []
    else if p(rows[0]) then [rows[0]] + Where(rows[1..], p)
    else
      var rest := Where(rows[1..], p);
      assert rest != [] ==> exists i :: 0 <= i < |rows| && rows[i] == rest[0] && forall j :: 0 <= j < i ==> !p(rows[j]) by {
        if rest != [] {
          var i :| 0 <= i < |rows[1..]| && rows[1..][i] == rest[0] && forall j :: 0 <= j < i ==> !p(rows[1..][j]);
          assert rows[i + 1] == rest[0];
          forall j | 0 <= j < i + 1 ensures !p(rows[j]) {
            if j > 0 { assert rows[j] == rows[1..][j - 1]; }
          }
        }
      }
      rest
  }

  /** Appending a row adds it to a result exactly when it matches. */
  lemma {:induction false} WhereAppend(rows: seq<UserRow>, row: UserRow, p: UserRow -> bool)
    ensures Where(rows + [row], p) == Where(rows, p) + (if p(row) then [row] else [])
    decreases |rows|
  {
    if rows == [] {
      assert [row][1..] == [];
    } else {
      assert (rows + [row])[1..] == rows[1..] + [row];
      WhereAppend(rows[1..], row, p);
    }
  }

  /** All ids are below a bound. */
  ghost predicate IdsBelow(rows: seq<UserRow>, bound: int)
  {
    forall i :: 0 <= i < |rows| ==> rows[i].id < bound
  }

  /** `update user set email, names, surnames where id_user = id`. */
  function SetProfile(rows: seq<UserRow>, id: int, email: string, names: string, surnames: string): (r: seq<UserRow>)
    ensures |r| == |rows|
    ensures forall i :: 0 <= i < |rows| && rows[i].id != id ==> r[i] == rows[i]
    ensures forall i :: 0 <= i < |rows| && rows[i].id == id ==>
      r[i] == rows[i].(email := email, names := names, surnames := surnames)
  {
    seq(|rows|, i requires 0 <= i < |rows| =>
      if rows[i].id == id then rows[i].(email := email, names := names, surnames := surnames) else rows[i])
  }

  /** `update user set password where id_user = id`. */
  function SetPassword(rows: seq<UserRow>, id: int, hash: string): (r: seq<UserRow>)
    ensures |r| == |rows|
    ensures forall i :: 0 <= i < |rows| && rows[i].id != id ==> r[i] == rows[i]
    ensures forall i :: 0 <= i < |rows| && rows[i].id == id ==> r[i] == rows[i].(password := hash)
  {
    seq(|rows|, i requires 0 <= i < |rows| => if rows[i].id == id then rows[i].(password := hash) else rows[i])
  }

  /** The rows `delete from user where id_user != 1 and id_user = target` removes. */
  predicate Deletable(row: UserRow, target: int)
  {
    row.id != 1 && row.id == target
  }

  /** `delete from user where id_user != 1 and id_user = target`. */
  function DeleteUser(rows: seq<UserRow>, target: int): (r: seq<UserRow>)
    ensures forall x :: x in r <==> x in rows && !Deletable(x, target)
  {
    Where(rows, x => !Deletable(x, target))
  }

  /** In an ordered table the delete removes at most one row, and removes none when no row qualifies. */
  lemma {:induction false} DeleteAtMostOne(rows: seq<UserRow>, target: int)
    requires Ordered(rows)
    ensures |DeleteUser(rows, target)| >= |rows| - 1
    ensures (forall x :: x in rows ==> !Deletable(x, target)) ==> DeleteUser(rows, target) == rows
    decreases |rows|
  {
    var p := x => !Deletable(x, target);
    assert forall t: seq<UserRow> :: DeleteUser(t, target) == Where(t, p);
    if rows != [] {
      var tail := rows[1..];
      assert Ordered(tail);
      DeleteAtMostOne(tail, target);
      if !p(rows[0]) {
        // rows[0] has the target id, so every later row has a larger one and is kept.
        forall x | x in tail ensures p(x) {
          var k :| 0 <= k < |tail| && tail[k] == x;
          assert rows[k + 1] == x;
        }
        WhereAllKept(tail, p);
      } else if forall x :: x in rows ==> p(x) {
        WhereAllKept(rows, p);
      }
    }
  }

  /** A filtered table is still ordered, and its ids stay within the table's bounds. */
  lemma {:induction false} WhereKeepsOrder(rows: seq<UserRow>, p: UserRow -> bool, bound: int)
    requires Ordered(rows) && IdsBelow(rows, bound)
    requires forall i :: 0 <= i < |rows| ==> rows[i].id >= 1
    ensures Ordered(Where(rows, p)) && IdsBelow(Where(rows, p), bound)
    ensures forall i :: 0 <= i < |Where(rows, p)| ==> Where(rows, p)[i].id >= 1
    decreases |rows|
  {
    var r := Where(rows, p);
    forall i | 0 <= i < |r| ensures r[i].id >= 1 && r[i].id < bound {
      assert r[i] in rows;
    }
    if rows != [] {
      var tail := rows[1..];
      WhereKeepsOrder(tail, p, bound);
      if p(rows[0]) {
        var rest := Where(tail, p);
        assert r == [rows[0]] + rest;
        forall k | 0 <= k < |rest| ensures rows[0].id < rest[k].id {
          assert rest[k] in tail;
          var m :| 0 <= m < |tail| && tail[m] == rest[k];
          assert rows[m + 1] == rest[k];
        }
      }
    }
  }

  /** A filter that keeps every row keeps the table as it is. */
  lemma {:induction false} WhereAllKept(rows: seq<UserRow>, p: UserRow -> bool)
    requires forall x :: x in rows ==> p(x)
    ensures Where(rows, p) == rows
    decreases |rows|
  {
    if rows != [] {
      assert rows[0] in rows;
      forall x | x in rows[1..] ensures p(x) {
        var k :| 0 <= k < |rows[1..]| && rows[1..][k] == x;
        assert rows[k + 1] == x;
      }
      WhereAllKept(rows[1..], p);
      assert [rows[0]] + rows[1..] == rows;
    }
  }

  /** The table, with its AUTO_INCREMENT counter. */
  class UserTable {
    var rows: seq<UserRow>
    var nextId: int

    ghost predicate Valid()
      reads this
    {
      Ordered(rows) && nextId >= 1 && IdsBelow(rows, nextId)
      && forall i :: 0 <= i < |rows| ==> rows[i].id >= 1
    }

    constructor ()
      ensures Valid() && rows == [] && nextId == 1
    {
      rows, nextId := [], 1;
    }

    /** `insert into user (...) values (...)`: the new row gets the next generated id. */
    method Insert(idUserType: int, names: string, surnames: string, email: string, password: string, accountNumber: Option<string>)
      returns (id: int)
      requires Valid()
      modifies this
      ensures Valid()
      ensures id == old(nextId) && nextId == id + 1
      ensures rows == old(rows) + [UserRow(id, idUserType, names, surnames, email, password, accountNumber)]
    {
      id := nextId;
      rows := rows + [UserRow(id, idUserType, names, surnames, email, password, accountNumber)];
      nextId := nextId + 1;
    }

    /** `update user set email = ?, names = ?, surnames = ? where id_user = ?`. */
    method UpdateProfile(id: int, email: string, names: string, surnames: string)
      requires Valid()
      modifies this`rows
      ensures Valid()
      ensures rows == SetProfile(old(rows), id, email, names, surnames)
    {
      SameIdsKeepValid(rows, SetProfile(rows, id, email, names, surnames), nextId);
      rows := SetProfile(rows, id, email, names, surnames);
    }

    /** `update user set password = ? where id_user = ?`. */
    method UpdatePassword(id: int, hash: string)
      requires Valid()
      modifies this`rows
      ensures Valid()
      ensures rows == SetPassword(old(rows), id, hash)
    {
      SameIdsKeepValid(rows, SetPassword(rows, id, hash), nextId);
      rows := SetPassword(rows, id, hash);
    }

    /** `delete from user where id_user != 1 and id_user = ?`. */
    method Delete(target: int)
      requires Valid()
      modifies this`rows
      ensures Valid()
      ensures rows == DeleteUser(old(rows), target)
    {
      WhereKeepsOrder(rows, x => !Deletable(x, target), nextId);
      rows := DeleteUser(rows, target);
    }
  }

  /** Rewriting columns other than the id keeps the table ordered. */
  lemma SameIdsKeepValid(before: seq<UserRow>, after: seq<UserRow>, bound: int)
    requires Ordered(before) && IdsBelow(before, bound)
    requires |after| == |before| && forall i :: 0 <= i < |before| ==> after[i].id == before[i].id
    ensures Ordered(after) && IdsBelow(after, bound)
  {
  }
}
