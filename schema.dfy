/** The `parser_app` schema: the `Status` choices and the `ProductInfo` table's
    columns, their nullability, defaults and length limits, and the values that
    the extractors put into a `product_info` dict. */
module Schema {
  import opened Base

  /** `Status(models.TextChoices)`: the lifecycle of a product link. */
  datatype Status = New | Done | Failed

  /** The code stored in the two-character `status` column. */
  function Code(s: Status): (c: string)
    ensures |c| == 2
  {
    match s
    case New => "NW"
    case Done => "DE"
    case Failed => "FD"
  }

  /** Reading a stored code back; anything but the three codes is no status. */
  function FromCode(c: string): (r: Option<Status>)
    ensures r.Some? ==> Code(r.value) == c
    ensures r.None? ==> c != "NW" && c != "DE" && c != "FD"
  {
    if c == "NW" then Some(New)
    else if c == "DE" then Some(Done)
    else if c == "FD" then Some(Failed)
    else None
  }

  /** Every status survives being stored as its code, and no two share a code. */
  lemma CodeRoundTrip(s: Status, t: Status)
    ensures FromCode(Code(s)) == Some(s)
    ensures Code(s) == Code(t) ==> s == t
  {
  }

  /** The keys of a `product_info` dict; all but the two promoted screen keys
      are also columns of `ProductInfo`. */
  datatype Key =
    | Link | Name | Color | BuiltinMemory | Manufacturer | PriceRegular | PriceSale
    | Sku | ReviewsCount | Images | Characteristics | StatusField
    | ScreenDiagonal | ScreenResolution

  /** One characteristics group as the extractors build it: `(title, items_dict)`. */
  type Entry = (string, Dict)

  /** A value held by a `product_info` dict or a table cell. */
  datatype Value =
    | Null                           // None / SQL NULL
    | Str(text: string)              // a text cell
    | Srcs(srcs: seq<Option<string>>) // the `images` list; an image without `src` gives None
    | Table(entries: seq<Entry>)     // the `characteristics` list
    | Stat(status: Status)           // the `status` column

  type Info = map<Key, Value>

  /** The columns of `ProductInfo` that the extractors can name (the id and the
      two timestamps are kept apart, in `Row`). */
  const Columns: set<Key> := set k: Key | k != ScreenDiagonal && k != ScreenResolution

  /** The scalar fields that each extractor reads from one node. */
  const TextFields: set<Key> := {Name, Color, BuiltinMemory, Manufacturer, Sku, ReviewsCount}

  /** `max_length` of each character column (`URLField` defaults to 200). */
  function MaxLength(k: Key): Option<nat> {
    match k
    case Link => Some(200)
    case Name => Some(255)
    case Color => Some(100)
    case BuiltinMemory => Some(20)
    case Manufacturer => Some(100)
    case PriceRegular => Some(11)
    case PriceSale => Some(11)
    case Sku => Some(50)
    case StatusField => Some(2)
    case _ => None
  }

  /** `max_length` of each element of the `images` array. */
  const ImageMaxLength: nat := 255

  /** `null=True`: every column but `link` and `status` may hold NULL. */
  predicate Nullable(k: Key) {
    k != Link && k != StatusField
  }

  /** Whether the database takes `v` into column `k` without a data error.
      NULL is judged separately, by `NotNullOk`. */
  predicate Accepts(k: Key, v: Value) {
    match v
    case Null => true
    case Str(s) =>
      (k == ReviewsCount) || (k != StatusField && MaxLength(k).Some? && |s| <= MaxLength(k).value)
    case Srcs(xs) =>
      k == Images && forall i :: 0 <= i < |xs| ==> xs[i].None? || |xs[i].value| <= ImageMaxLength
    case Table(_) => k == Characteristics
    case Stat(s) => k == StatusField && |Code(s)| <= MaxLength(StatusField).value
  }

  predicate Storable(fields: Info) {
    forall k :: k in fields ==> Accepts(k, fields[k])
  }

  predicate NotNullOk(fields: Info) {
    forall k :: k in fields && !Nullable(k) ==> fields[k] != Null
  }

  /** `ProductInfo(link=url)`: every column present, `link` set, `status` at its
      default NEW and every nullable column NULL. */
  function NewRecord(link: string): (fields: Info)
    ensures fields.Keys == Columns
    ensures fields[Link] == Str(link) && fields[StatusField] == Stat(New)
    ensures forall k :: k in Columns && Nullable(k) ==> fields[k] == Null
  {
    map k | k in Columns :: if k == Link then Str(link) else if k == StatusField then Stat(New) else Null
  }

  /** A fresh record is stored as it is whenever its link fits the column. */
  lemma NewRecordStorable(link: string)
    requires |link| <= 200
    ensures Storable(NewRecord(link)) && NotNullOk(NewRecord(link))
  {
  }
}
