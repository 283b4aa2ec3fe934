/** How the scripts store what they read. 1_get_links registers a link with
    status NEW; 3_get_info_selenium and 4_get_info_playwright pass the whole
    `product_info` dict, with `link` and status DONE added, to
    `get_or_create`; 2_get_info_selenium builds a new record for the page's
    URL, copies the dict onto it with `setattr` and saves it. */
module Persistence {
  import opened Base
  import opened Schema
  import opened Dom
  import opened Extraction
  import opened Characteristics
  import opened ProductPage
  import opened Store
  import SeleniumPage

  // ---------------------------------------------------------------------------
  // Registering a link (modules/1_get_links.py)

  /** The keywords 1_get_links passes to `get_or_create`. */
  function RegisterKwargs(url: string): (kwargs: Info)
    ensures kwargs.Keys <= Columns && Link in kwargs && StatusField in kwargs
  {
    map[Link := Str(url), StatusField := Stat(New)]
  }

  // ---------------------------------------------------------------------------
  // `save_to_db(driver, data)` (3_get_info_selenium, 4_get_info_playwright)

  /** `data` once `save_to_db` has set its `link` and `status`. */
  function SaveKwargs(data: Info, url: string): (kwargs: Info)
    ensures kwargs.Keys == data.Keys + {Link, StatusField}
    ensures kwargs[Link] == Str(url) && kwargs[StatusField] == Stat(Done)
    ensures forall k :: k in data && k != Link && k != StatusField ==> kwargs[k] == data[k]
  {
    data[Link := Str(url)][StatusField := Stat(Done)]
  }

  /** `save_to_db`: the dict, with the current URL and status DONE written
      into it, goes to `get_or_create` as keywords. `updated` is the caller's
      dict after the call, since the two writes change it in place. */
  method SaveToDb(table: ProductTable, data: Info, url: string, now: nat)
    returns (r: Outcome<(Row, bool)>, updated: Info)
    requires table.Valid()
    modifies table
    ensures table.Valid()
    ensures updated == SaveKwargs(data, url)
    ensures (r, table.rows) == FindOrCreate(old(table.rows), updated, now)
  {
    updated := data[Link := Str(url)];
    updated := updated[StatusField := Stat(Done)];
    r := table.GetOrCreate(updated, now);
  }

  /** A page with a screen diagonal or resolution row leaves a key in the dict
      that names no column; `get_or_create` rejects it before any query, so
      such a page is never stored. */
  lemma PromotedKeyBlocksSave(b: Backend, d: Document, url: string, rows: seq<Row>, now: nat)
    requires ProductData(b, d).Returned?
    requires LastLabelled(b, ParsedRows(b, d.groups), DiagonalLabel).Some?
          || LastLabelled(b, ParsedRows(b, d.groups), ResolutionLabel).Some?
    ensures FindOrCreate(rows, SaveKwargs(ProductData(b, d).value, url), now) == (Raised(FieldError), rows)
  {
    ResultKeysAndPromotion(b, d);
    var kwargs := SaveKwargs(ProductData(b, d).value, url);
    assert ScreenDiagonal in kwargs || ScreenResolution in kwargs;
    ScreenKeyRaises(rows, kwargs, now);
  }

  lemma ScreenKeyRaises(rows: seq<Row>, kwargs: Info, now: nat)
    requires ScreenDiagonal in kwargs || ScreenResolution in kwargs
    ensures FindOrCreate(rows, kwargs, now) == (Raised(FieldError), rows)
  {
    assert !(kwargs.Keys <= Columns);
  }

  /** A page without promoted keys whose values fit their columns, saved under
      a link the table does not hold yet, becomes a new row: the link, status
      DONE, every field of the dict, and both stamps at `now`. */
  lemma FirstSaveStoresPage(rows: seq<Row>, data: Info, url: string, now: nat)
    requires TableInvariant(rows) && !HasLink(rows, Str(url))
    requires data.Keys <= Columns && Storable(data) && |url| <= 200
    ensures var (r, rows') := FindOrCreate(rows, SaveKwargs(data, url), now);
            && r.Returned? && r.value.1 && rows' == rows + [r.value.0]
            && r.value.0.createdAt == now && r.value.0.updatedAt == now
            && Link in r.value.0.fields && r.value.0.fields[Link] == Str(url)
            && StatusField in r.value.0.fields && r.value.0.fields[StatusField] == Stat(Done)
            && (forall k :: k in data && k != Link && k != StatusField ==> k in r.value.0.fields && r.value.0.fields[k] == data[k])
  {
    var kwargs := SaveKwargs(data, url);
    assert Storable(kwargs) by {
      forall k | k in kwargs
        ensures Accepts(k, kwargs[k])
      {
        if k != Link && k != StatusField {
          assert kwargs[k] == data[k];
        }
      }
    }
    NewLinkIsCreated(rows, kwargs, now);
    CreatedHoldsKeywords(kwargs, now);
    MatchingRowHoldsData(Row(Created(kwargs), now, now), data, url);
  }

  /** A row that matches the keywords of `save_to_db` holds the URL, status
      DONE and the dict. */
  lemma MatchingRowHoldsData(row: Row, data: Info, url: string)
    requires Matches(row, SaveKwargs(data, url))
    ensures row.fields[Link] == Str(url) && row.fields[StatusField] == Stat(Done)
    ensures forall k :: k in data && k != Link && k != StatusField ==> k in row.fields && row.fields[k] == data[k]
  {
    var kwargs := SaveKwargs(data, url);
    assert Link in kwargs && StatusField in kwargs;
    forall k | k in data && k != Link && k != StatusField
      ensures k in row.fields && row.fields[k] == data[k]
    {
      assert k in kwargs && kwargs[k] == data[k];
    }
  }

  /** `save_to_db` never advances a link registered as NEW: `get_or_create`
      looks the page up by every field, the NEW row does not match, the new
      row would repeat its link, and the save raises with the registered row
      left as it was. */
  lemma RegisteredLinkNotAdvanced(rows: seq<Row>, data: Info, url: string, now: nat, i: nat)
    requires TableInvariant(rows) && data.Keys <= Columns
    requires i < |rows| && rows[i].fields[Link] == Str(url) && rows[i].fields[StatusField] == Stat(New)
    ensures FindOrCreate(rows, SaveKwargs(data, url), now).1 == rows
    ensures FindOrCreate(rows, SaveKwargs(data, url), now).0 in {Raised(IntegrityError), Raised(DataError)}
  {
    var kwargs := SaveKwargs(data, url);
    assert WellFormed(rows[i]);
    assert !Matches(rows[i], kwargs) by {
      assert kwargs[StatusField] == Stat(Done);
    }
    StoredLinkWithOtherValuesRaises(rows, kwargs, now, i);
  }

  /** The pipeline as the scripts run it: registering a new link succeeds, and
      saving the parsed page for that link afterwards raises and leaves the
      table holding the NEW row. */
  lemma RegisterThenSaveRaises(rows: seq<Row>, url: string, data: Info, t1: nat, t2: nat)
    requires TableInvariant(rows) && !HasLink(rows, Str(url)) && |url| <= 200 && data.Keys <= Columns
    ensures var (r1, rows1) := FindOrCreate(rows, RegisterKwargs(url), t1);
            && r1.Returned? && r1.value.1 && rows1 == rows + [r1.value.0]
            && FindOrCreate(rows1, SaveKwargs(data, url), t2).1 == rows1
            && FindOrCreate(rows1, SaveKwargs(data, url), t2).0 in {Raised(IntegrityError), Raised(DataError)}
  {
    var kwargs := RegisterKwargs(url);
    assert Storable(kwargs);
    NewLinkIsCreated(rows, kwargs, t1);
    CreatedHoldsKeywords(kwargs, t1);
    GetOrCreateOutcome(rows, kwargs, t1);
    var rows1 := rows + [Row(Created(kwargs), t1, t1)];
    assert rows1[|rows|].fields[Link] == Str(url) && rows1[|rows|].fields[StatusField] == Stat(New);
    RegisteredLinkNotAdvanced(rows1, data, url, t2, |rows|);
  }

  // ---------------------------------------------------------------------------
  // Saving a new record (modules/2_get_info_selenium.py)

  /** The record 2_get_info_selenium saves: `ProductInfo(link=url)` with every
      dict key that names a column copied onto it (other keys become plain
      attributes that `save` ignores), then status DONE. */
  function Record(url: string, data: Info): (fields: Info)
    ensures fields.Keys == Columns
  {
    map k | k in Columns :: if k == StatusField then Stat(Done) else if k in data then data[k] else Initial(url, k)
  }

  /** What the saved record holds: the URL as its link unless the dict names
      one, status DONE, each column the dict names with the dict's value, NULL
      in every other column; the promoted screen keys are not stored. */
  lemma RecordHoldsPage(url: string, data: Info)
    ensures var rec := Record(url, data);
            && rec[StatusField] == Stat(Done)
            && rec[Link] == (if Link in data then data[Link] else Str(url))
            && (forall k :: k in Columns && k != StatusField && k in data ==> rec[k] == data[k])
            && (forall k :: k in Columns && Nullable(k) && k !in data ==> rec[k] == Null)
            && ScreenDiagonal !in rec && ScreenResolution !in rec
  {
  }

  /** The first run for a page stores its record: a table without the link
      and column values that fit give the dict back and one new row holding
      `Record(url, data)`. */
  lemma FirstRunStoresRecord(rows: seq<Row>, data: Info, url: string, now: nat)
    requires !HasLink(rows, Str(url)) && |url| <= 200 && Link !in data
    requires forall k :: k in data && k in Columns && k != StatusField ==> Accepts(k, data[k])
    ensures SaveRecord(rows, data, url, now) == (Returned(data), rows + [Row(Record(url, data), now, now)])
  {
    var rec := Record(url, data);
    RecordHoldsPage(url, data);
    assert Storable(rec) by {
      forall k | k in rec
        ensures Accepts(k, rec[k])
      {
        if k in data && k != StatusField {
          assert rec[k] == data[k];
        }
      }
    }
    assert NotNullOk(rec);
  }

  /** 2_get_info_selenium saves with a plain INSERT, so running it again for a
      page already stored raises an integrity error and stores nothing. */
  lemma SecondRunCollides(rows: seq<Row>, url: string, first: Info, second: Info, t1: nat, t2: nat)
    requires Link !in first && Link !in second
    requires SaveRecord(rows, first, url, t1).0.Returned? && Storable(Record(url, second))
    ensures var rows1 := SaveRecord(rows, first, url, t1).1;
            SaveRecord(rows1, second, url, t2) == (Raised(IntegrityError), rows1)
  {
    RecordHoldsPage(url, first);
    RecordHoldsPage(url, second);
    SecondInsertOfLinkFails(rows, Record(url, first), Record(url, second), t1, t2);
  }

  /** Column `k` of `ProductInfo(link=url)`. */
  function Initial(url: string, k: Key): Value {
    if k == Link then Str(url) else if k == StatusField then Stat(New) else Null
  }

  /** The new record once the `setattr` loop has copied the keys in `done`. */
  function Copied(url: string, data: Info, done: set<Key>): (fields: Info)
    ensures fields.Keys == Columns
  {
    map k | k in Columns :: if k in data && k in done then data[k] else Initial(url, k)
  }

  lemma CopiedNone(url: string, data: Info)
    ensures Copied(url, data, {}) == NewRecord(url)
  {
    var copied, initial := Copied(url, data, {}), NewRecord(url);
    assert copied.Keys == initial.Keys;
    forall k | k in copied
      ensures copied[k] == initial[k]
    {
    }
  }

  lemma CopiedStep(url: string, data: Info, done: set<Key>, k: Key)
    requires k in data
    ensures Copied(url, data, done + {k}) == if k in Columns then Copied(url, data, done)[k := data[k]] else Copied(url, data, done)
  {
  }

  lemma CopiedAll(url: string, data: Info)
    ensures Copied(url, data, data.Keys)[StatusField := Stat(Done)] == Record(url, data)
  {
  }

  /** `ProductInfo(link=url)`, the `setattr` loop over the dict and the status
      set to DONE. */
  method BuildRecord(url: string, data: Info) returns (prod: Info)
    ensures prod == Record(url, data)
  {
    prod := NewRecord(url);
    var todo := data.Keys;
    ghost var done: set<Key> := {};
    CopiedNone(url, data);
    while todo != {}
      invariant done !! todo && done + todo == data.Keys
      invariant prod == Copied(url, data, done)
      decreases todo
    {
      var k :| k in todo;
      CopiedStep(url, data, done, k);
      if k in Columns {
        prod := prod[k := data[k]];
      }
      todo := todo - {k};
      done := done + {k};
    }
    CopiedAll(url, data);
    prod := prod[StatusField := Stat(Done)];
  }

  /** The table after `prod.save()` of the record built from `data`, and
      what the script returns: the dict, or the exception `save` raised. */
  function SaveRecord(rows: seq<Row>, data: Info, url: string, now: nat): (r: (Outcome<Info>, seq<Row>))
    ensures r.0.Returned? ==> r.0.value == data && r.1 == rows + [Row(Record(url, data), now, now)]
    ensures r.0.Raised? ==> r.1 == rows && (r.0.exc == IntegrityError || r.0.exc == DataError)
  {
    match Insert(rows, Record(url, data), now)
    case Returned(rows') => (Returned(data), rows')
    case Raised(e) => (Raised(e), rows)
  }

  /** The persistence half of 2_get_info_selenium's `parse_product_data`. */
  method SaveNewRecord(table: ProductTable, data: Info, url: string, now: nat) returns (r: Outcome<Info>)
    requires table.Valid()
    modifies table
    ensures table.Valid()
    ensures (r, table.rows) == SaveRecord(old(table.rows), data, url, now)
  {
    var prod := BuildRecord(url, data);
    var saved := table.Save(prod, now);
    if saved.Raised? {
      return Raised(saved.exc);
    }
    return Returned(data);
  }

  /** `parse_product_data(driver, wait)` of 2_get_info_selenium: read the page
      as 3_get_info_selenium does, then store it as a new record and return the
      dict. An exception from the extraction or from `save` propagates. */
  method ParseAndSave(table: ProductTable, d: Document, url: string, now: nat) returns (r: Outcome<Info>)
    requires table.Valid()
    modifies table
    ensures table.Valid()
    ensures ProductData(Selenium, d).Raised? ==>
              r == Raised(ProductData(Selenium, d).exc) && table.rows == old(table.rows)
    ensures ProductData(Selenium, d).Returned? ==>
              (r, table.rows) == SaveRecord(old(table.rows), ProductData(Selenium, d).value, url, now)
  {
    var parsed := SeleniumPage.ParseProductData(d);
    if parsed.Raised? {
      return Raised(parsed.exc);
    }
    r := SaveNewRecord(table, parsed.value, url, now);
  }
}
