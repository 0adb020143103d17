/** The shop keeps each table as a list of records, each with an integer `id`.
    This module holds what every table shares: lookup of the first record with an id,
    removal of every record with an id (what each delete handler assigns back to its table),
    and the invariant that ids are distinct and below the table's id counter. */
module Records {

  datatype Option<T> = None | Some(value: T)

  /** One record of a table: its `id` and the rest of its fields. */
  datatype Row<D> = Row(id: int, data: D)

  /** The position of the first record with this id, or None when no record has it. */
  function IndexOfId<D>(rows: seq<Row<D>>, id: int): (r: Option<nat>)
    ensures r.Some? ==> r.value < |rows| && rows[r.value].id == id
    ensures r.Some? ==> forall k :: 0 <= k < r.value ==> rows[k].id != id
    ensures r.None? <==> forall k :: 0 <= k < |rows| ==> rows[k].id != id
  {
    if rows == [] then None
    else if rows[0].id == id then Some(0)
    else match IndexOfId(rows[1..], id)
      case None => None
      case Some(k) => Some(k + 1)
  }

  /** The table without the records that have this id, the others in their order. */
  function WithoutId<D>(rows: seq<Row<D>>, id: int): (r: seq<Row<D>>)
    ensures |r| <= |rows|
    ensures forall k :: 0 <= k < |r| ==> r[k].id != id
  {
    if rows == [] then []
    else (if rows[0].id == id then [] else [rows[0]]) + WithoutId(rows[1..], id)
  }

  /** Removal keeps exactly the records whose id differs. */
  lemma {:induction false} WithoutMembers<D>(rows: seq<Row<D>>, id: int)
    ensures forall k :: 0 <= k < |WithoutId(rows, id)| ==> WithoutId(rows, id)[k] in rows
    ensures forall k :: 0 <= k < |rows| && rows[k].id != id ==> rows[k] in WithoutId(rows, id)
  {
    if rows != [] {
      WithoutMembers(rows[1..], id);
      var rest := WithoutId(rows[1..], id);
      assert WithoutId(rows, id) == (if rows[0].id == id then [] else [rows[0]]) + rest;
      forall k | 0 < k < |rows| && rows[k].id != id ensures rows[k] in WithoutId(rows, id) {
        assert rows[k] == rows[1..][k - 1];
      }
    }
  }

  /** No two records of the table share an id. */
  predicate DistinctIds<D>(rows: seq<Row<D>>) {
    forall i, j :: 0 <= i < j < |rows| ==> rows[i].id != rows[j].id
  }

  /** Every id is positive and below the table's counter, and no two are equal:
      the counter is an id that no record has yet. */
  predicate FreshIds<D>(rows: seq<Row<D>>, next: int) {
    && (forall k :: 0 <= k < |rows| ==> 0 < rows[k].id < next)
    && DistinctIds(rows)
  }

  /** Removing an id that only one record has removes exactly that record
      and keeps every other record in its order. */
  lemma WithoutPresentId<D>(rows: seq<Row<D>>, id: int, k: nat)
    requires k < |rows| && rows[k].id == id
    requires forall m :: 0 <= m < |rows| && m != k ==> rows[m].id != id
    ensures WithoutId(rows, id) == rows[..k] + rows[k + 1..]
  {
    var pre, post := rows[..k], rows[k + 1..];
    assert rows == pre + [rows[k]] + post;
    WithoutConcat(pre + [rows[k]], post, id);
    WithoutConcat(pre, [rows[k]], id);
    forall m | 0 <= m < |pre| ensures pre[m].id != id {
      assert pre[m] == rows[m];
    }
    WithoutAbsentId(pre, id);
    forall m | 0 <= m < |post| ensures post[m].id != id {
      assert post[m] == rows[k + 1 + m];
    }
    WithoutAbsentId(post, id);
    assert WithoutId([rows[k]], id) == [];
  }

  /** Removing an id that no record has changes nothing. */
  lemma {:induction false} WithoutAbsentId<D>(rows: seq<Row<D>>, id: int)
    requires forall k :: 0 <= k < |rows| ==> rows[k].id != id
    ensures WithoutId(rows, id) == rows
  {
    if rows != [] {
      WithoutAbsentId(rows[1..], id);
      assert [rows[0]] + rows[1..] == rows;
    }
  }

  /** Removal distributes over concatenation. */
  lemma {:induction false} WithoutConcat<D>(a: seq<Row<D>>, b: seq<Row<D>>, id: int)
    ensures WithoutId(a + b, id) == WithoutId(a, id) + WithoutId(b, id)
  {
    if a == [] {
      assert a + b == b;
    } else {
      assert (a + b)[1..] == a[1..] + b;
      WithoutConcat(a[1..], b, id);
    }
  }

  /** Removal keeps the ids distinct. */
  lemma {:induction false} WithoutKeepsDistinct<D>(rows: seq<Row<D>>, id: int)
    requires DistinctIds(rows)
    ensures DistinctIds(WithoutId(rows, id))
  {
    if rows != [] {
      var rest := WithoutId(rows[1..], id);
      WithoutKeepsDistinct(rows[1..], id);
      WithoutMembers(rows[1..], id);
      if rows[0].id != id {
        var r := [rows[0]] + rest;
        forall j | 0 < j < |r| ensures r[0].id != r[j].id {
          var m :| 0 <= m < |rows[1..]| && rows[1..][m] == rest[j - 1];
          assert rows[m + 1] == r[j];
        }
        assert WithoutId(rows, id) == r;
      }
    }
  }

  /** Removal keeps the ids distinct and below the counter. */
  lemma WithoutKeepsFresh<D>(rows: seq<Row<D>>, id: int, next: int)
    requires FreshIds(rows, next)
    ensures FreshIds(WithoutId(rows, id), next)
  {
    WithoutKeepsDistinct(rows, id);
    WithoutMembers(rows, id);
    var r := WithoutId(rows, id);
    forall k | 0 <= k < |r| ensures 0 < r[k].id < next {
      var m :| 0 <= m < |rows| && rows[m] == r[k];
    }
  }

  /** Appending a record that carries the counter, and advancing the counter,
      keeps the ids distinct and below the counter. */
  lemma AppendKeepsFresh<D>(rows: seq<Row<D>>, next: int, data: D)
    requires FreshIds(rows, next) && next > 0
    ensures FreshIds(rows + [Row(next, data)], next + 1)
  {
  }

  /** Replacing the fields of a record, but not its id, keeps the ids as they were. */
  lemma ReplaceKeepsFresh<D>(rows: seq<Row<D>>, next: int, k: nat, data: D)
    requires FreshIds(rows, next) && k < |rows|
    ensures FreshIds(rows[k := Row(rows[k].id, data)], next)
  {
  }
}
