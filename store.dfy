/**
 * The relational store behind the JPA repositories: one table per entity,
 * kept in storage order, and one identity sequence per table. The generic
 * functions give the repository operations every table shares (`findById`,
 * `save`, `deleteById`); `key` extracts a row's primary key.
 */
module Store {
  import opened Common
  import opened Entities

  /** `findById`: the first row whose key is `id`, or null. */
  function Find<T>(rows: seq<T>, key: T -> int, id: int): (r: Option<T>)
    ensures r.Some? ==> r.value in rows && key(r.value) == id
    ensures r.None? <==> forall x :: x in rows ==> key(x) != id
  {
    if rows == [] then None
    else if key(rows[0]) == id then Some(rows[0])
    else Find(rows[1..], key, id)
  }

  /** The rows whose key is not `id` come first in their own order, so a lookup there is untouched by an appended row. */
  lemma {:induction false} FindAppend<T>(rows: seq<T>, key: T -> int, row: T, id: int)
    ensures Find(rows + [row], key, id) ==
            if Find(rows, key, id).Some? then Find(rows, key, id)
            else if key(row) == id then Some(row) else None
  {
    if rows != [] {
      assert (rows + [row])[1..] == rows[1..] + [row];
      FindAppend(rows[1..], key, row, id);
    }
  }

  /** Replaces the row holding `row`'s key, in place, or appends `row` when there is none. */
  function Put<T>(rows: seq<T>, key: T -> int, row: T): (r: seq<T>)
    ensures Find(r, key, key(row)) == Some(row)
    ensures forall id {:trigger Find(rows, key, id)} :: id != key(row) ==> Find(r, key, id) == Find(rows, key, id)
    ensures forall x :: x in r ==> x == row || x in rows
    ensures |r| == if Find(rows, key, key(row)).Some? then |rows| else |rows| + 1
  {
    if rows == [] then [row]
    else if key(rows[0]) == key(row) then [row] + rows[1..]
    else
      var r := [rows[0]] + Put(rows[1..], key, row);
      assert r[1..] == Put(rows[1..], key, row);
      r
  }

  /** `deleteById`: drops the rows whose key is `id`; nothing happens when there are none. */
  function Remove<T(!new)>(rows: seq<T>, key: T -> int, id: int): (r: seq<T>)
    ensures Find(r, key, id) == None
    ensures forall other {:trigger Find(rows, key, other)} :: other != id ==> Find(r, key, other) == Find(rows, key, other)
    ensures forall x :: x in r <==> x in rows && key(x) != id
  {
    if rows == [] then []
    else if key(rows[0]) == id then Remove(rows[1..], key, id)
    else
      var r := [rows[0]] + Remove(rows[1..], key, id);
      assert r[1..] == Remove(rows[1..], key, id);
      r
  }

  /** A derived query without ordering: the rows satisfying `p`, in storage order. */
  function Where<T(!new)>(rows: seq<T>, p: T -> bool): (r: seq<T>)
    ensures forall x :: x in r <==> x in rows && p(x)
    ensures |r| <= |rows|
  {
    if rows == [] then []
    else (if p(rows[0]) then [rows[0]] else []) + Where(rows[1..], p)
  }

  /** Rows stored later are listed later: filtering a table with one more row appends that row when it qualifies. */
  lemma {:induction false} WhereAppend<T(!new)>(rows: seq<T>, p: T -> bool, row: T)
    ensures Where(rows + [row], p) == Where(rows, p) + (if p(row) then [row] else [])
  {
    if rows == [] {
      assert rows + [row] == [row];
    } else {
      var longer := rows + [row];
      assert longer[0] == rows[0];
      assert longer[1..] == rows[1..] + [row];
      WhereAppend(rows[1..], p, row);
      var head := if p(rows[0]) then [rows[0]] else [];
      assert Where(longer, p) == head + Where(rows[1..] + [row], p);
      assert Where(rows, p) == head + Where(rows[1..], p);
    }
  }

  /** Tests that agree on every stored row select the same rows in the same order. */
  lemma {:induction false} WhereSame<T(!new)>(rows: seq<T>, p: T -> bool, q: T -> bool)
    requires forall x :: x in rows ==> p(x) == q(x)
    ensures Where(rows, p) == Where(rows, q)
  {
    if rows != [] {
      WhereSame(rows[1..], p, q);
    }
  }

  /** Every key in the table was drawn from the identity sequence, which now stands at `next`. */
  ghost predicate KeysBelow<T>(rows: seq<T>, key: T -> int, next: int) {
    forall x :: x in rows ==> 1 <= key(x) < next
  }

  /** No two rows of the table share a primary key. */
  ghost predicate KeysUnique<T>(rows: seq<T>, key: T -> int) {
    forall i, j :: 0 <= i < j < |rows| ==> key(rows[i]) != key(rows[j])
  }

  /** With unique keys, `findById` returns the one row that has the key. */
  lemma {:induction false} FindUnique<T>(rows: seq<T>, key: T -> int, x: T)
    requires KeysUnique(rows, key) && x in rows
    ensures Find(rows, key, key(x)) == Some(x)
  {
    if rows[0] != x {
      assert x in rows[1..];
      var k :| 0 <= k < |rows[1..]| && rows[1..][k] == x;
      assert rows[k + 1] == x;
      FindUnique(rows[1..], key, x);
    }
  }

  /** A row in the tail of a table with unique keys has a key other than the head's. */
  lemma TailKeyDiffers<T>(rows: seq<T>, key: T -> int, x: T)
    requires KeysUnique(rows, key) && rows != [] && x in rows[1..]
    ensures key(x) != key(rows[0])
  {
    var k :| 0 <= k < |rows[1..]| && rows[1..][k] == x;
    assert rows[k + 1] == x;
  }

  /** A head whose key no tail row has, before a tail with unique keys, gives a table with unique keys. */
  lemma ConsKeysUnique<T>(head: T, tail: seq<T>, key: T -> int)
    requires KeysUnique(tail, key)
    requires forall x :: x in tail ==> key(x) != key(head)
    ensures KeysUnique([head] + tail, key)
  {
    var r := [head] + tail;
    forall i, j | 0 <= i < j < |r| ensures key(r[i]) != key(r[j]) {
      assert r[j] == tail[j - 1];
      if i > 0 {
        assert r[i] == tail[i - 1];
      }
    }
  }

  /** Replacing a row in place keeps keys unique. */
  lemma {:induction false} PutKeepsKeysUnique<T>(rows: seq<T>, key: T -> int, row: T)
    requires KeysUnique(rows, key)
    ensures KeysUnique(Put(rows, key, row), key)
  {
    if rows != [] {
      if key(rows[0]) == key(row) {
        forall x | x in rows[1..] ensures key(x) != key(row) {
          TailKeyDiffers(rows, key, x);
        }
        ConsKeysUnique(row, rows[1..], key);
      } else {
        PutKeepsKeysUnique(rows[1..], key, row);
        forall x | x in Put(rows[1..], key, row) ensures key(x) != key(rows[0]) {
          if x != row {
            TailKeyDiffers(rows, key, x);
          }
        }
        ConsKeysUnique(rows[0], Put(rows[1..], key, row), key);
      }
    }
  }

  /** Dropping rows keeps keys unique. */
  lemma {:induction false} RemoveKeepsKeysUnique<T(!new)>(rows: seq<T>, key: T -> int, id: int)
    requires KeysUnique(rows, key)
    ensures KeysUnique(Remove(rows, key, id), key)
  {
    if rows != [] {
      RemoveKeepsKeysUnique(rows[1..], key, id);
      if key(rows[0]) != id {
        forall x | x in Remove(rows[1..], key, id) ensures key(x) != key(rows[0]) {
          TailKeyDiffers(rows, key, x);
        }
        ConsKeysUnique(rows[0], Remove(rows[1..], key, id), key);
      }
    }
  }

  /** A table and its identity sequence after a `save`. */
  datatype Saved<T> = Saved(rows: seq<T>, next: int, row: T)

  /**
   * `save`: a row whose key is already stored replaces that row in place
   * (a merge); any other row is inserted with the next generated key.
   */
  function Save<T(!new)>(rows: seq<T>, key: T -> int, withId: (T, int) -> T, next: int, row: T): (s: Saved<T>)
    requires KeysBelow(rows, key, next) && 1 <= next
    requires forall x, i :: key(withId(x, i)) == i
    ensures KeysBelow(s.rows, key, s.next) && next <= s.next
    ensures KeysUnique(rows, key) ==> KeysUnique(s.rows, key)
    ensures Find(rows, key, key(row)).Some? ==> s == Saved(Put(rows, key, row), next, row)
    ensures Find(rows, key, key(row)).None? ==> s == Saved(rows + [withId(row, next)], next + 1, withId(row, next))
    ensures Find(s.rows, key, key(s.row)) == Some(s.row)
    ensures forall id {:trigger Find(rows, key, id)} :: id != key(s.row) ==> Find(s.rows, key, id) == Find(rows, key, id)
  {
    if Find(rows, key, key(row)).Some? then
      assert KeysUnique(rows, key) ==> KeysUnique(Put(rows, key, row), key) by {
        if KeysUnique(rows, key) {
          PutKeepsKeysUnique(rows, key, row);
        }
      }
      Saved(Put(rows, key, row), next, row)
    else
      var inserted := withId(row, next);
      FindAppend(rows, key, inserted, next);
      assert KeysUnique(rows, key) ==> KeysUnique(rows + [inserted], key) by {
        if KeysUnique(rows, key) {
          forall i, j | 0 <= i < j < |rows + [inserted]| ensures key((rows + [inserted])[i]) != key((rows + [inserted])[j]) {
            assert (rows + [inserted])[i] == rows[i];
            if j == |rows| {
              assert rows[i] in rows;
            } else {
              assert (rows + [inserted])[j] == rows[j];
            }
          }
        }
      }
      forall id ensures Find(rows + [inserted], key, id) == Find(rows, key, id) || id == next {
        FindAppend(rows, key, inserted, id);
      }
      Saved(rows + [inserted], next + 1, inserted)
  }

  /** The database the server's repositories share. */
  class Database {
    var users: seq<User>
    var items: seq<Item>
    var bookings: seq<Booking>
    var comments: seq<Comment>
    var requests: seq<ItemRequest>
    var userSeq: int
    var itemSeq: int
    var bookingSeq: int
    var commentSeq: int
    var requestSeq: int

    /** Every stored key came from its table's identity sequence, and no key is stored twice. */
    ghost predicate Valid()
      reads this
    {
      && 1 <= userSeq && KeysBelow(users, UserKey, userSeq) && KeysUnique(users, UserKey)
      && 1 <= itemSeq && KeysBelow(items, ItemKey, itemSeq) && KeysUnique(items, ItemKey)
      && 1 <= bookingSeq && KeysBelow(bookings, BookingKey, bookingSeq) && KeysUnique(bookings, BookingKey)
      && 1 <= commentSeq && KeysBelow(comments, CommentKey, commentSeq) && KeysUnique(comments, CommentKey)
      && 1 <= requestSeq && KeysBelow(requests, RequestKey, requestSeq) && KeysUnique(requests, RequestKey)
    }

    /** An empty database; identity sequences start at 1. */
    constructor ()
      ensures Valid()
      ensures users == [] && items == [] && bookings == [] && comments == [] && requests == []
      ensures userSeq == 1 && itemSeq == 1 && bookingSeq == 1 && commentSeq == 1 && requestSeq == 1
    {
      users, items, bookings, comments, requests := [], [], [], [], [];
      userSeq, itemSeq, bookingSeq, commentSeq, requestSeq := 1, 1, 1, 1, 1;
    }
  }
}
