/** The `ProductInfo` table as the scripts use it through Django: a new
    instance's `save()` is one INSERT, and `objects.get_or_create(**kwargs)`
    looks a row up by every keyword and inserts one when none matches. The
    database enforces the column limits (a data error), NOT NULL and the
    uniqueness of `link` (an integrity error). */
module Store {
  import opened Base
  import opened Schema

  /** One stored record: its column values and its `created_at` / `updated_at`
      stamps, in ticks of the clock that the caller passes in. */
  datatype Row = Row(fields: Info, createdAt: nat, updatedAt: nat)

  /** A row as the database can hold it: every column present, every value
      accepted by its column, no NULL where the column forbids it. */
  predicate WellFormed(r: Row) {
    r.fields.Keys == Columns && Storable(r.fields) && NotNullOk(r.fields) && r.createdAt <= r.updatedAt
  }

  /** `unique=True` on `link`. */
  predicate UniqueLinks(rows: seq<Row>) {
    forall i, j :: 0 <= i < j < |rows| && Link in rows[i].fields && Link in rows[j].fields ==>
      rows[i].fields[Link] != rows[j].fields[Link]
  }

  predicate TableInvariant(rows: seq<Row>) {
    (forall i :: 0 <= i < |rows| ==> WellFormed(rows[i])) && UniqueLinks(rows)
  }

  /** Some stored row has this link. */
  predicate HasLink(rows: seq<Row>, link: Value) {
    exists i :: 0 <= i < |rows| && Link in rows[i].fields && rows[i].fields[Link] == link
  }

  /** `filter(**kwargs)` on a row: every named column holds the given value
      (a None keyword matches NULL). */
  predicate Matches(r: Row, kwargs: Info) {
    forall k :: k in kwargs ==> k in r.fields && r.fields[k] == kwargs[k]
  }

  /** The rows that `filter(**kwargs)` selects, in table order. */
  function Filter(rows: seq<Row>, kwargs: Info): (hits: seq<Row>)
    ensures |hits| <= |rows|
    ensures forall r :: r in hits ==> r in rows && Matches(r, kwargs)
    ensures forall i :: 0 <= i < |rows| && Matches(rows[i], kwargs) ==> rows[i] in hits
  {
    if rows == [] then []
    else
      var last := rows[|rows| - 1];
      Filter(rows[..|rows| - 1], kwargs) + (if Matches(last, kwargs) then [last] else [])
  }

  /** What `get(**kwargs)` finds: `DoesNotExist`, the one row, or
      `MultipleObjectsReturned`. */
  datatype Found = NoRow | One(row: Row) | Several

  /** Two selected rows come from two matching positions of the table. */
  lemma {:induction false} FilterTwoHits(rows: seq<Row>, kwargs: Info)
    requires |Filter(rows, kwargs)| >= 2
    ensures exists i, j :: 0 <= i < j < |rows| && Matches(rows[i], kwargs) && Matches(rows[j], kwargs)
    decreases |rows|
  {
    var pre, last := rows[..|rows| - 1], rows[|rows| - 1];
    var h := Filter(pre, kwargs);
    if |h| >= 2 {
      FilterTwoHits(pre, kwargs);
      var i, j :| 0 <= i < j < |pre| && Matches(pre[i], kwargs) && Matches(pre[j], kwargs);
      assert rows[i] == pre[i] && rows[j] == pre[j];
    } else {
      assert h[0] in h;
      var i :| 0 <= i < |pre| && pre[i] == h[0];
      assert rows[i] == pre[i] && Matches(rows[i], kwargs);
      assert Matches(rows[|rows| - 1], kwargs);
    }
  }

  /** Two matching positions give two selected rows, even when the rows are equal. */
  lemma {:induction false} FilterCountsMatches(rows: seq<Row>, kwargs: Info, i: nat, j: nat)
    requires i < j < |rows| && Matches(rows[i], kwargs) && Matches(rows[j], kwargs)
    ensures |Filter(rows, kwargs)| >= 2
    decreases |rows|
  {
    var pre := rows[..|rows| - 1];
    if j < |rows| - 1 {
      assert pre[i] == rows[i] && pre[j] == rows[j];
      FilterCountsMatches(pre, kwargs, i, j);
    } else {
      assert pre[i] == rows[i];
      assert |Filter(pre, kwargs)| >= 1;
    }
  }

  /** `get(**kwargs)`: NoRow when nothing matches, One when exactly one
      position matches, Several when two or more do. */
  function Find(rows: seq<Row>, kwargs: Info): (f: Found)
    ensures f.NoRow? <==> forall i :: 0 <= i < |rows| ==> !Matches(rows[i], kwargs)
    ensures f.One? ==> f.row in rows && Matches(f.row, kwargs)
    ensures f.One? ==> forall i, j :: 0 <= i < j < |rows| && Matches(rows[i], kwargs) ==> !Matches(rows[j], kwargs)
    ensures f.Several? ==> exists i, j :: 0 <= i < j < |rows| && Matches(rows[i], kwargs) && Matches(rows[j], kwargs)
    ensures (exists i :: 0 <= i < |rows| && Matches(rows[i], kwargs) &&
              forall j :: 0 <= j < |rows| && Matches(rows[j], kwargs) ==> j == i) ==> f.One?
  {
    var hits := Filter(rows, kwargs);
    if |hits| == 0 then NoRow
    else if |hits| == 1 then
      assert hits[0] in hits;
      assert forall i, j :: 0 <= i < j < |rows| && Matches(rows[i], kwargs) && Matches(rows[j], kwargs) ==> false by {
        forall i, j | 0 <= i < j < |rows| && Matches(rows[i], kwargs) && Matches(rows[j], kwargs)
          ensures false
        {
          FilterCountsMatches(rows, kwargs, i, j);
        }
      }
      One(hits[0])
    else
      FilterTwoHits(rows, kwargs);
      Several
  }

  /** `save()` of an instance not yet stored: the INSERT either fails, leaving
      the table as it was, or appends the row stamped with `now`. A value the
      column refuses is a data error and is reported first; a NULL link or
      status, or a link already stored, is an integrity error. */
  function Insert(rows: seq<Row>, fields: Info, now: nat): (r: Outcome<seq<Row>>)
    requires fields.Keys == Columns
    ensures r.Raised? <==> !Storable(fields) || !NotNullOk(fields) || HasLink(rows, fields[Link])
    ensures r.Raised? ==> r.exc == (if Storable(fields) then IntegrityError else DataError)
    ensures r.Returned? ==> r.value == rows + [Row(fields, now, now)]
  {
    if !Storable(fields) then Raised(DataError)
    else if !NotNullOk(fields) || HasLink(rows, fields[Link]) then Raised(IntegrityError)
    else Returned(rows + [Row(fields, now, now)])
  }

  /** The instance that `get_or_create` builds when nothing matches: the model's
      defaults (an empty `link`, status NEW, NULL elsewhere) under the keywords. */
  function Created(kwargs: Info): (fields: Info)
    requires kwargs.Keys <= Columns
    ensures fields.Keys == Columns
  {
    NewRecord("") + kwargs
  }

  /** `get_or_create(**kwargs)` with the table to itself: the outcome (the row
      and whether it was created) and the table afterwards. A keyword that
      names no column raises before any query. */
  function FindOrCreate(rows: seq<Row>, kwargs: Info, now: nat): (r: (Outcome<(Row, bool)>, seq<Row>))
    ensures r.1 == rows || (r.0.Returned? && r.0.value.1 && r.1 == rows + [r.0.value.0])
    ensures !(kwargs.Keys <= Columns) ==> r.0 == Raised(FieldError)
  {
    if !(kwargs.Keys <= Columns) then (Raised(FieldError), rows)
    else
      match Find(rows, kwargs)
      case One(row) => (Returned((row, false)), rows)
      case Several => (Raised(MultipleObjectsReturned), rows)
      case NoRow => CreateStep(rows, Created(kwargs), now)
  }

  /** The create half of `get_or_create`. When the INSERT fails Django looks
      the keywords up once more; with no other writer that lookup finds what
      the first one found, nothing, and the error is re-raised. */
  function CreateStep(rows: seq<Row>, fields: Info, now: nat): (r: (Outcome<(Row, bool)>, seq<Row>))
    requires fields.Keys == Columns
    ensures r.0.Raised? <==> !Storable(fields) || !NotNullOk(fields) || HasLink(rows, fields[Link])
    ensures r.0.Raised? ==> r.1 == rows && (r.0.exc == IntegrityError || r.0.exc == DataError)
    ensures r.0.Returned? ==> r.0.value == (Row(fields, now, now), true) && r.1 == rows + [r.0.value.0]
  {
    match Insert(rows, fields, now)
    case Returned(rows') => (Returned((Row(fields, now, now), true)), rows')
    case Raised(e) => (Raised(e), rows)
  }

  // ---------------------------------------------------------------------------
  // What the table guarantees

  /** What every stored row satisfies: all columns present, `link` and
      `status` never NULL, every character value within its column's
      `max_length`, every image path within 255 characters, and a creation
      stamp no later than the update stamp. */
  lemma StoredRowFitsColumns(rows: seq<Row>, i: nat)
    requires TableInvariant(rows) && i < |rows|
    ensures var f := rows[i].fields;
            && f.Keys == Columns
            && f[Link].Str? && f[StatusField].Stat?
            && (forall k :: k in f && f[k].Str? && k != ReviewsCount ==>
                  MaxLength(k).Some? && |f[k].text| <= MaxLength(k).value)
            && (f[Images].Srcs? ==> forall j :: 0 <= j < |f[Images].srcs| && f[Images].srcs[j].Some? ==>
                  |f[Images].srcs[j].value| <= ImageMaxLength)
            && rows[i].createdAt <= rows[i].updatedAt
  {
    var f := rows[i].fields;
    assert WellFormed(rows[i]);
    assert Accepts(Link, f[Link]) && f[Link] != Null;
    assert Accepts(StatusField, f[StatusField]) && f[StatusField] != Null;
    assert Accepts(Images, f[Images]);
  }

  /** An INSERT that succeeds keeps every row well formed and the links unique. */
  lemma InsertKeepsInvariant(rows: seq<Row>, fields: Info, now: nat)
    requires TableInvariant(rows) && fields.Keys == Columns
    requires Insert(rows, fields, now).Returned?
    ensures Insert(rows, fields, now).value == rows + [Row(fields, now, now)]
    ensures TableInvariant(rows + [Row(fields, now, now)])
  {
    var rows' := rows + [Row(fields, now, now)];
    forall i, j | 0 <= i < j < |rows'| && Link in rows'[i].fields && Link in rows'[j].fields
      ensures rows'[i].fields[Link] != rows'[j].fields[Link]
    {
      if j == |rows| {
        assert rows'[i] == rows[i];
      }
    }
  }

  /** The table never holds two rows with one link: saving a second record with
      a stored link fails with an integrity error and changes nothing. */
  lemma SecondInsertOfLinkFails(rows: seq<Row>, first: Info, second: Info, t1: nat, t2: nat)
    requires first.Keys == Columns && second.Keys == Columns
    requires Insert(rows, first, t1).Returned? && Storable(second)
    requires second[Link] == first[Link]
    ensures Insert(Insert(rows, first, t1).value, second, t2) == Raised(IntegrityError)
  {
    var rows' := Insert(rows, first, t1).value;
    assert rows'[|rows|].fields[Link] == second[Link];
  }

  /** Under unique links no two rows share a link, so a lookup that names the
      link selects at most one row. */
  lemma {:induction false} FilterByLinkAtMostOne(rows: seq<Row>, kwargs: Info)
    requires UniqueLinks(rows) && Link in kwargs
    ensures |Filter(rows, kwargs)| <= 1
    decreases |rows|
  {
    if rows != [] {
      var pre, last := rows[..|rows| - 1], rows[|rows| - 1];
      assert UniqueLinks(pre) by {
        assert forall i :: 0 <= i < |pre| ==> pre[i] == rows[i];
      }
      FilterByLinkAtMostOne(pre, kwargs);
      if Matches(last, kwargs) {
        assert forall i :: 0 <= i < |pre| ==> !Matches(pre[i], kwargs) by {
          assert forall i :: 0 <= i < |pre| ==> pre[i] == rows[i];
        }
        assert Find(pre, kwargs).NoRow?;
      }
    }
  }

  /** `get_or_create` with a `link` keyword never raises
      `MultipleObjectsReturned`. */
  lemma LinkKeywordNeverFindsSeveral(rows: seq<Row>, kwargs: Info, now: nat)
    requires UniqueLinks(rows) && Link in kwargs
    ensures FindOrCreate(rows, kwargs, now).0 != Raised(MultipleObjectsReturned)
  {
    FilterByLinkAtMostOne(rows, kwargs);
    var found := Find(rows, kwargs);
    assert !found.Several?;
    assert found.NoRow? ==> FindOrCreate(rows, kwargs, now).0 != Raised(MultipleObjectsReturned) by {
      if found.NoRow? && kwargs.Keys <= Columns {
        CreateStepNeverFindsSeveral(rows, Created(kwargs), now);
      }
    }
  }

  /** An INSERT never reports several rows. */
  lemma CreateStepNeverFindsSeveral(rows: seq<Row>, fields: Info, now: nat)
    requires fields.Keys == Columns
    ensures CreateStep(rows, fields, now).0 != Raised(MultipleObjectsReturned)
  {
  }

  /** The record created from the keywords holds every keyword, and the
      model's defaults (an empty link, status NEW, NULL) in every other column. */
  lemma CreatedHoldsKeywords(kwargs: Info, now: nat)
    requires kwargs.Keys <= Columns
    ensures Matches(Row(Created(kwargs), now, now), kwargs)
    ensures forall k :: k in Columns && k !in kwargs ==> Created(kwargs)[k] == NewRecord("")[k]
  {
  }

  /** The created record fits the table when the keywords do and name a
      link and a status. */
  lemma CreatedStorable(kwargs: Info)
    requires kwargs.Keys <= Columns && Storable(kwargs)
    requires Link in kwargs && kwargs[Link] != Null && StatusField in kwargs && kwargs[StatusField] != Null
    ensures Storable(Created(kwargs)) && NotNullOk(Created(kwargs))
  {
    var fields := Created(kwargs);
    forall k | k in fields
      ensures Accepts(k, fields[k])
    {
      if k !in kwargs {
        assert fields[k] == NewRecord("")[k] == Null;
      }
    }
  }

  /** Without a stored row for the keywords' link, no row matches them. */
  lemma NewLinkNotFound(rows: seq<Row>, kwargs: Info)
    requires Link in kwargs && !HasLink(rows, kwargs[Link])
    ensures Find(rows, kwargs).NoRow?
  {
    assert forall i :: 0 <= i < |rows| ==> !Matches(rows[i], kwargs);
  }

  /** Keywords that fit their columns, name the link and the status, and
      carry a link the table does not hold: `get_or_create` creates the row. */
  lemma NewLinkIsCreated(rows: seq<Row>, kwargs: Info, now: nat)
    requires kwargs.Keys <= Columns && Storable(kwargs)
    requires Link in kwargs && kwargs[Link] != Null && StatusField in kwargs && kwargs[StatusField] != Null
    requires !HasLink(rows, kwargs[Link])
    ensures var row := Row(Created(kwargs), now, now);
            FindOrCreate(rows, kwargs, now) == (Returned((row, true)), rows + [row])
  {
    NewLinkNotFound(rows, kwargs);
    CreatedStorable(kwargs);
    var fields := Created(kwargs);
    assert fields[Link] == kwargs[Link];
    assert Insert(rows, fields, now) == Returned(rows + [Row(fields, now, now)]);
  }

  /** `get_or_create` returns a row that matches the keywords. Either it found
      it, and the table is unchanged, or it created it from the keywords with
      both stamps at `now` and appended it, keeping the invariant. When it
      raises, the table is unchanged. */
  lemma GetOrCreateOutcome(rows: seq<Row>, kwargs: Info, now: nat)
    requires TableInvariant(rows)
    ensures var (r, rows') := FindOrCreate(rows, kwargs, now);
            && TableInvariant(rows')
            && (r.Raised? ==> rows' == rows)
            && (r.Returned? ==> Matches(r.value.0, kwargs))
            && (r.Returned? && r.value.1 ==>
                  && rows' == rows + [r.value.0]
                  && r.value.0 == Row(Created(kwargs), now, now))
            && (r.Returned? && !r.value.1 ==> rows' == rows && r.value.0 in rows)
  {
    if kwargs.Keys <= Columns {
      var found := Find(rows, kwargs);
      if found.NoRow? {
        var fields := Created(kwargs);
        CreatedHoldsKeywords(kwargs, now);
        if Insert(rows, fields, now).Returned? {
          InsertKeepsInvariant(rows, fields, now);
        }
      }
    }
  }

  /** The create half either raises and leaves the table alone or appends
      exactly the new row. */
  lemma CreateStepAppends(rows: seq<Row>, fields: Info, now: nat)
    requires fields.Keys == Columns
    ensures var (r, rows') := CreateStep(rows, fields, now);
            || (r.Raised? && rows' == rows)
            || (r == Returned((Row(fields, now, now), true)) && rows' == rows + [Row(fields, now, now)])
  {
  }

  /** A stored row keeps its place and its stamps: `get_or_create` appends at
      most one row and changes none. */
  lemma GetOrCreateOnlyAppends(rows: seq<Row>, kwargs: Info, now: nat)
    ensures var rows' := FindOrCreate(rows, kwargs, now).1;
            |rows| <= |rows'| <= |rows| + 1 && rows'[..|rows|] == rows
  {
    var (r, rows') := FindOrCreate(rows, kwargs, now);
    if rows' != rows {
      assert rows' == rows + [r.value.0];
      assert rows'[..|rows|] == rows;
    }
  }

  /** When the lookup finds something `get_or_create` creates nothing: one
      match is returned and several raise, whatever the clock. */
  lemma GetOrCreateFinds(rows: seq<Row>, kwargs: Info, now: nat)
    requires kwargs.Keys <= Columns && !Find(rows, kwargs).NoRow?
    ensures FindOrCreate(rows, kwargs, now).1 == rows
    ensures FindOrCreate(rows, kwargs, now).0 ==
              if Find(rows, kwargs).One? then Returned((Find(rows, kwargs).row, false))
              else Raised(MultipleObjectsReturned)
  {
  }

  lemma FilterSnoc(rows: seq<Row>, row: Row, kwargs: Info)
    ensures Filter(rows + [row], kwargs) == Filter(rows, kwargs) + (if Matches(row, kwargs) then [row] else [])
  {
    assert (rows + [row])[..|rows|] == rows;
  }

  /** A row appended to a table where nothing matched is the one match. */
  lemma AppendedRowFound(rows: seq<Row>, row: Row, kwargs: Info, later: nat)
    requires kwargs.Keys <= Columns && Find(rows, kwargs).NoRow? && Matches(row, kwargs)
    ensures FindOrCreate(rows + [row], kwargs, later) == (Returned((row, false)), rows + [row])
  {
    FilterSnoc(rows, row, kwargs);
    assert Filter(rows, kwargs) == [];
    assert Filter(rows + [row], kwargs) == [row];
    assert Find(rows + [row], kwargs) == One(row);
    GetOrCreateFinds(rows + [row], kwargs, later);
  }

  /** Running `get_or_create` again with the same keywords finds the row the
      first call returned and changes nothing. */
  lemma GetOrCreateIdempotent(rows: seq<Row>, kwargs: Info, now: nat, later: nat)
    requires FindOrCreate(rows, kwargs, now).0.Returned?
    ensures var (r, rows') := FindOrCreate(rows, kwargs, now);
            FindOrCreate(rows', kwargs, later) == (Returned((r.value.0, false)), rows')
  {
    assert kwargs.Keys <= Columns;
    var found := Find(rows, kwargs);
    if found.NoRow? {
      var fields := Created(kwargs);
      CreateStepAppends(rows, fields, now);
      CreatedHoldsKeywords(kwargs, now);
      AppendedRowFound(rows, Row(fields, now, now), kwargs, later);
    } else {
      GetOrCreateFinds(rows, kwargs, now);
      GetOrCreateFinds(rows, kwargs, later);
    }
  }

  /** A stored link whose row differs from the keywords in some other column
      (say its status) is not found, and creating a second row for it breaks
      the link's uniqueness: the call raises an integrity error (or a data
      error, when some value does not fit its column) and the stored row is
      left as it was. */
  lemma StoredLinkWithOtherValuesRaises(rows: seq<Row>, kwargs: Info, now: nat, i: nat)
    requires UniqueLinks(rows) && kwargs.Keys <= Columns && Link in kwargs
    requires i < |rows| && Link in rows[i].fields && rows[i].fields[Link] == kwargs[Link]
    requires !Matches(rows[i], kwargs)
    ensures FindOrCreate(rows, kwargs, now).1 == rows
    ensures FindOrCreate(rows, kwargs, now).0 in {Raised(IntegrityError), Raised(DataError)}
  {
    assert Find(rows, kwargs).NoRow? by {
      forall j | 0 <= j < |rows|
        ensures !Matches(rows[j], kwargs)
      {
      }
    }
    var fields := Created(kwargs);
    CreatedHoldsKeywords(kwargs, now);
    assert HasLink(rows, fields[Link]);
    CreateStepOfStoredLinkRaises(rows, fields, now);
  }

  lemma CreateStepOfStoredLinkRaises(rows: seq<Row>, fields: Info, now: nat)
    requires fields.Keys == Columns && HasLink(rows, fields[Link])
    ensures CreateStep(rows, fields, now).1 == rows
    ensures CreateStep(rows, fields, now).0 in {Raised(IntegrityError), Raised(DataError)}
  {
  }

  // ---------------------------------------------------------------------------
  // The table object

  /** The table as a mutable object: its rows change only through `Save` and
      `GetOrCreate`. */
  class ProductTable {
    var rows: seq<Row>

    ghost predicate Valid()
      reads this
    {
      TableInvariant(rows)
    }

    constructor ()
      ensures rows == [] && Valid()
    {
      rows := [];
    }

    /** `save()` of a new instance. */
    method Save(fields: Info, now: nat) returns (r: Outcome<Row>)
      requires Valid() && fields.Keys == Columns
      modifies this
      ensures Valid()
      ensures Insert(old(rows), fields, now).Returned? ==>
                r == Returned(Row(fields, now, now)) && rows == old(rows) + [Row(fields, now, now)]
      ensures Insert(old(rows), fields, now).Raised? ==>
                r == Raised(Insert(old(rows), fields, now).exc) && rows == old(rows)
    {
      if !Storable(fields) {
        return Raised(DataError);
      }
      if !NotNullOk(fields) || HasLink(rows, fields[Link]) {
        return Raised(IntegrityError);
      }
      InsertKeepsInvariant(rows, fields, now);
      var row := Row(fields, now, now);
      rows := rows + [row];
      return Returned(row);
    }

    /** `objects.get_or_create(**kwargs)`. */
    method GetOrCreate(kwargs: Info, now: nat) returns (r: Outcome<(Row, bool)>)
      requires Valid()
      modifies this
      ensures Valid()
      ensures (r, rows) == FindOrCreate(old(rows), kwargs, now)
    {
      if !(kwargs.Keys <= Columns) {
        return Raised(FieldError);
      }
      var found := Find(rows, kwargs);
      if !found.NoRow? {
        GetOrCreateFinds(rows, kwargs, now);
        r := if found.One? then Returned((found.row, false)) else Raised(MultipleObjectsReturned);
        return;
      }
      ghost var step := CreateStep(rows, Created(kwargs), now);
      assert FindOrCreate(rows, kwargs, now) == step;
      var saved := Save(Created(kwargs), now);
      if saved.Raised? {
        return Raised(saved.exc);
      }
      return Returned((saved.value, true));
    }
  }
}
