/**
 * The crawler's MySQL table, as the crawl sees it: an ordered sequence of
 * rows `(screen_name, name, location, checked, follower_count)`. A SELECT is
 * taken to return rows in table (insertion) order; SQL itself does not promise
 * that order, so it is an assumption of this model.
 */
module Database {

  datatype Row = Row(screenName: string, name: string, location: string, checked: int, followerCount: int)

  /** `SELECT screen_name FROM t WHERE checked=flag`, in table order. */
  function NamesWithFlag(rows: seq<Row>, flag: int): (names: seq<string>)
    ensures |names| <= |rows|
  {
    if rows == [] then []
    else (if rows[0].checked == flag then [rows[0].screenName] else []) + NamesWithFlag(rows[1..], flag)
  }

  /** A name is listed exactly when some row of that name carries the flag. */
  lemma {:induction false} NamesWithFlagMembers(rows: seq<Row>, flag: int)
    ensures forall n :: n in NamesWithFlag(rows, flag) <==>
      exists i :: 0 <= i < |rows| && rows[i].checked == flag && rows[i].screenName == n
  {
    if rows != [] {
      NamesWithFlagMembers(rows[1..], flag);
      assert forall i :: 1 <= i < |rows| ==> rows[i] == rows[1..][i - 1];
    }
  }

  /** Every screen name in the table, in table order. */
  function ScreenNames(rows: seq<Row>): seq<string>
  {
    if rows == [] then [] else [rows[0].screenName] + ScreenNames(rows[1..])
  }

  /** The table after `UPDATE t SET checked=1 WHERE screen_name='name'`. */
  function SetChecked(rows: seq<Row>, name: string): seq<Row>
  {
    seq(|rows|, i requires 0 <= i < |rows| =>
      if rows[i].screenName == name then rows[i].(checked := 1) else rows[i])
  }

  /** Every flag is 0 or 1, as the crawler writes them. */
  predicate FlagsBinary(rows: seq<Row>)
  {
    forall i :: 0 <= i < |rows| ==> rows[i].checked == 0 || rows[i].checked == 1
  }

  /** No screen name occurs in two rows. */
  predicate UniqueNames(rows: seq<Row>)
  {
    forall i, j :: 0 <= i < j < |rows| ==> rows[i].screenName != rows[j].screenName
  }

  /**
   * `after` is `before` grown by the crawl: no row is removed or reordered,
   * and an existing row is either untouched or has had its flag set to 1.
   */
  predicate Evolves(before: seq<Row>, after: seq<Row>)
  {
    && |before| <= |after|
    && forall i :: 0 <= i < |before| ==> after[i] == before[i] || after[i] == before[i].(checked := 1)
  }

  lemma EvolvesTransitive(a: seq<Row>, b: seq<Row>, c: seq<Row>)
    requires Evolves(a, b) && Evolves(b, c)
    ensures Evolves(a, c)
  {
  }

  /** A flag that is 1 stays 1 however the table evolves. */
  lemma CheckedStaysChecked(before: seq<Row>, after: seq<Row>, i: int)
    requires Evolves(before, after)
    requires 0 <= i < |before| && before[i].checked == 1
    ensures after[i].checked == 1
  {
  }

  /**
   * The UPDATE of a seed: the table evolves, each row of that name has flag 1,
   * every other row is untouched, and the name is no longer among the unchecked.
   */
  lemma MarkCheckedEffect(rows: seq<Row>, name: string)
    ensures Evolves(rows, SetChecked(rows, name))
    ensures |SetChecked(rows, name)| == |rows|
    ensures forall i :: 0 <= i < |rows| && rows[i].screenName == name ==> SetChecked(rows, name)[i].checked == 1
    ensures forall i :: 0 <= i < |rows| && rows[i].screenName != name ==> SetChecked(rows, name)[i] == rows[i]
    ensures FlagsBinary(rows) ==> FlagsBinary(SetChecked(rows, name))
    ensures name !in NamesWithFlag(SetChecked(rows, name), 0)
  {
    NamesWithFlagMembers(SetChecked(rows, name), 0);
  }

  /** Appending rows leaves the existing ones as they were. */
  lemma AppendEvolves(rows: seq<Row>, added: seq<Row>)
    ensures Evolves(rows, rows + added)
  {
  }

  /** With 0/1 flags, the two SELECT lists together hold every row's name exactly once. */
  lemma {:induction false} NamesPartition(rows: seq<Row>)
    requires FlagsBinary(rows)
    ensures multiset(NamesWithFlag(rows, 1)) + multiset(NamesWithFlag(rows, 0)) == multiset(ScreenNames(rows))
  {
    if rows != [] {
      var rest := rows[1..];
      var name := rows[0].screenName;
      assert FlagsBinary(rest) by {
        forall i | 0 <= i < |rest| ensures rest[i].checked == 0 || rest[i].checked == 1 {
          assert rest[i] == rows[i + 1];
        }
      }
      NamesPartition(rest);
      var ones, zeros := NamesWithFlag(rest, 1), NamesWithFlag(rest, 0);
      if rows[0].checked == 1 {
        assert NamesWithFlag(rows, 1) == [name] + ones;
        assert NamesWithFlag(rows, 0) == zeros;
      } else {
        assert NamesWithFlag(rows, 1) == ones;
        assert NamesWithFlag(rows, 0) == [name] + zeros;
      }
      assert ScreenNames(rows) == [name] + ScreenNames(rest);
    }
  }

  /** With unique screen names, no name is both checked and unchecked. */
  lemma NamesDisjoint(rows: seq<Row>)
    requires UniqueNames(rows)
    ensures forall n :: n in NamesWithFlag(rows, 1) ==> n !in NamesWithFlag(rows, 0)
  {
    NamesWithFlagMembers(rows, 1);
    NamesWithFlagMembers(rows, 0);
  }

  /**
   * The unchecked list is empty exactly when no row has flag 0; otherwise its
   * head is the name of the first row, in table order, whose flag is 0.
   */
  lemma {:induction false} FirstUnchecked(rows: seq<Row>)
    ensures NamesWithFlag(rows, 0) == [] <==> forall i :: 0 <= i < |rows| ==> rows[i].checked != 0
    ensures NamesWithFlag(rows, 0) != [] ==>
      exists k :: 0 <= k < |rows| && rows[k].checked == 0 && NamesWithFlag(rows, 0)[0] == rows[k].screenName
        && forall j :: 0 <= j < k ==> rows[j].checked != 0
  {
    if rows != [] && rows[0].checked != 0 {
      FirstUnchecked(rows[1..]);
      if NamesWithFlag(rows, 0) != [] {
        var k :| 0 <= k < |rows[1..]| && rows[1..][k].checked == 0 && NamesWithFlag(rows[1..], 0)[0] == rows[1..][k].screenName
          && forall j :: 0 <= j < k ==> rows[1..][j].checked != 0;
        assert forall j :: 1 <= j < k + 1 ==> rows[j] == rows[1..][j - 1];
      }
    }
  }

  /** The table, updated in place by the crawl's UPDATE and INSERT statements. */
  class Table {
    var rows: seq<Row>

    constructor (initial: seq<Row>)
      ensures rows == initial
    {
      rows := initial;
    }

    /** `SELECT screen_name FROM t WHERE checked=flag`. */
    function SelectScreenNames(flag: int): seq<string>
      reads this
    {
      NamesWithFlag(rows, flag)
    }

    /** `UPDATE t SET checked=1 WHERE screen_name='name'`. */
    method MarkChecked(name: string)
      modifies this
      ensures rows == SetChecked(old(rows), name)
    {
      rows := SetChecked(rows, name);
    }

    /** One row added by an INSERT statement. */
    method Insert(row: Row)
      modifies this
      ensures rows == old(rows) + [row]
    {
      rows := rows + [row];
    }
  }
}
