/** The extraction rules that the product-page scripts share: reading one
    scalar node, splitting the price spans, collecting image sources, and the
    characteristics parser with its promotion of the two screen rows. */
module Extraction {
  import opened Base
  import opened Schema
  import opened Dom

  // ---------------------------------------------------------------------------
  // Scalar fields, prices, images

  /** `node.text.strip()` under a handler for a missing node and a missing
      text: either gives None. */
  function NodeText(n: Option<Node>): (r: Value)
    ensures r.Null? || r.Str?
    ensures r == Null <==> n.None? || n.value.text.None?
  {
    if n.Some? && n.value.text.Some? then Str(Strip(n.value.text.value)) else Null
  }

  /** Playwright's `page.locator(xpath).text_content().strip()` under
      `except AttributeError`: a locator that matches nothing raises, and only
      a missing text becomes None. */
  function LocatorText(n: Option<Node>): (r: Outcome<Value>)
    ensures r.Raised? <==> n.None?
    ensures r.Raised? ==> r.exc == TimeoutError
    ensures r.Returned? ==> r.value == NodeText(n)
  {
    if n.None? then Raised(TimeoutError) else Returned(NodeText(n))
  }

  /** `prices[i].text.strip()` under `except IndexError`: a missing span gives
      None; a span without text raises an AttributeError that nothing catches. */
  function PriceAt(prices: seq<Node>, i: nat): (r: Outcome<Value>)
    ensures r.Raised? <==> i < |prices| && prices[i].text.None?
    ensures r.Raised? ==> r.exc == AttributeError
    ensures r == Returned(Null) <==> i >= |prices|
  {
    if i >= |prices| then Returned(Null)
    else if prices[i].text.None? then Raised(AttributeError)
    else Returned(Str(Strip(prices[i].text.value)))
  }

  /** The `images_srcs` loop: the `src` of every matched image, in document
      order; an image without `src` contributes None. */
  method CollectSrcs(images: seq<Node>) returns (srcs: seq<Option<string>>)
    ensures |srcs| == |images|
    ensures forall i :: 0 <= i < |images| ==> srcs[i] == images[i].src
  {
    srcs := [];
    for i := 0 to |images|
      invariant |srcs| == i
      invariant forall j :: 0 <= j < i ==> srcs[j] == images[j].src
    {
      srcs := srcs + [images[i].src];
    }
  }

  /** The value of `images_srcs` after the loop. */
  function SrcsOf(images: seq<Node>): (srcs: seq<Option<string>>) {
    seq(|images|, i requires 0 <= i < |images| => images[i].src)
  }

  // ---------------------------------------------------------------------------
  // Characteristics: reading rules

  const DiagonalLabel: string := "Діагональ екрану"
  const ResolutionLabel: string := "Роздільна здатність екрану"

  /** The title of a characteristics block: `Some(t)` to parse the block, `None`
      for the handler's `continue`. BeautifulSoup and Selenium skip a block
      without `h3`; Playwright's locator raises instead, and only a missing
      text is skipped. */
  function Title(b: Backend, g: Group): (r: Outcome<Option<string>>)
    ensures r.Raised? <==> b == Playwright && g.heading.None?
    ensures r.Raised? ==> r.exc == TimeoutError
    ensures r == Returned(None) <==> (g.heading.None? && b != Playwright) || (g.heading.Some? && g.heading.value.text.None?)
  {
    match g.heading
    case None => if b == Playwright then Raised(TimeoutError) else Returned(None)
    case Some(h) => if h.text.None? then Returned(None) else Returned(Some(Strip(h.text.value)))
  }

  /** `param_name` and `param_value` once the `try` around them is left. */
  datatype Cell = Cell(name: Option<string>, value: Option<string>)

  /** The value cell: BeautifulSoup reads its inner `<a>`; Selenium and
      Playwright read the cell's own text with non-breaking spaces made plain. */
  function CellValue(b: Backend, value: Node): (r: Option<string>)
    ensures r.None? <==> if b == Soup then value.anchor.None? || value.anchor.value.text.None? else value.text.None?
    ensures b != Soup && r.Some? ==> Nbsp !in r.value
  {
    if b == Soup then
      if value.anchor.Some? && value.anchor.value.text.Some?
      then Some(Strip(value.anchor.value.text.value)) else None
    else if value.text.Some? then
      StripTrimsBothEnds(ReplaceNbsp(value.text.value));
      Some(Strip(ReplaceNbsp(value.text.value)))
    else None
  }

  /** `key, value, *rest = spans` (a ValueError below two cells), then the name
      read; the value is read only once the name was. */
  function ReadRow(b: Backend, cells: seq<Node>): (r: Outcome<Cell>)
    ensures r.Raised? <==> |cells| < 2
    ensures r.Raised? ==> r.exc == ValueError
    ensures r.Returned? ==> (r.value.name.None? <==> cells[0].text.None?)
    ensures r.Returned? && r.value.name.None? ==> r.value.value.None?
  {
    if |cells| < 2 then Raised(ValueError)
    else if cells[0].text.None? then Returned(Cell(None, None))
    else Returned(Cell(Some(Strip(cells[0].text.value)), CellValue(b, cells[1])))
  }

  /** What the `finally` block has written to the promoted keys so far; None
      while a key is untouched. */
  datatype Promoted = Promoted(diagonal: Option<Value>, resolution: Option<Value>)

  const Unpromoted := Promoted(None, None)

  /** The `finally` block for a row named `name`: a row named after neither
      label changes nothing, and a key once written stays written. */
  function PromoteRow(pr: Promoted, name: string, v: Value): (r: Promoted)
    ensures name != DiagonalLabel && name != ResolutionLabel ==> r == pr
    ensures pr.diagonal.Some? ==> r.diagonal.Some?
    ensures pr.resolution.Some? ==> r.resolution.Some?
  {
    Promoted(if name == DiagonalLabel then Some(v) else pr.diagonal,
             if name == ResolutionLabel then Some(v) else pr.resolution)
  }

  /** `items_dict` and the promoted keys while the rows of one block are read. */
  datatype RowAcc = RowAcc(items: Dict, promoted: Promoted)

  /** One row: a named row with a value goes into the dict; the `finally`
      promotes every named row, with None when its value could not be read. */
  function RowStep(acc: RowAcc, c: Cell): (r: RowAcc)
    ensures c.name.None? ==> r == acc
    ensures c.value.None? ==> r.items == acc.items
    ensures c.name.Some? && c.value.Some? ==> Get(r.items, c.name.value) == Some(c.value.value)
    ensures c.name.Some? && c.name.value != DiagonalLabel && c.name.value != ResolutionLabel ==>
              r.promoted == acc.promoted
  {
    match c.name
    case None => acc
    case Some(n) =>
      match c.value
      case None => RowAcc(acc.items, PromoteRow(acc.promoted, n, Null))
      case Some(v) => RowAcc(Put(acc.items, n, v), PromoteRow(acc.promoted, n, Str(v)))
  }

  /** The row loop of one block; only the unpacking's ValueError escapes it. */
  function ParseRows(b: Backend, rows: seq<seq<Node>>, start: RowAcc): (r: Outcome<RowAcc>)
    ensures r.Raised? ==> r.exc == ValueError
    decreases |rows|
  {
    if rows == [] then Returned(start)
    else
      match ParseRows(b, rows[..|rows| - 1], start)
      case Raised(e) => Raised(e)
      case Returned(acc) =>
        match ReadRow(b, rows[|rows| - 1])
        case Raised(e) => Raised(e)
        case Returned(c) => Returned(RowStep(acc, c))
  }

  /** `characteristics_list` and the promoted keys while the blocks are read. */
  datatype Parsed = Parsed(entries: seq<Entry>, promoted: Promoted)

  /** One block of the block loop. */
  function GroupStep(b: Backend, p: Parsed, g: Group): Outcome<Parsed> {
    match Title(b, g)
    case Raised(e) => Raised(e)
    case Returned(None) => Returned(p)
    case Returned(Some(t)) =>
      match ParseRows(b, g.rows, RowAcc([], p.promoted))
      case Raised(e) => Raised(e)
      case Returned(acc) => Returned(Parsed(p.entries + [(t, acc.items)], acc.promoted))
  }

  /** The block loop; what escapes it is a short row's ValueError or, with
      Playwright only, a missing `h3`'s locator error. */
  function ParseGroups(b: Backend, groups: seq<Group>): (r: Outcome<Parsed>)
    ensures r.Raised? ==> r.exc == ValueError || (b == Playwright && r.exc == TimeoutError)
    decreases |groups|
  {
    if groups == [] then Returned(Parsed([], Unpromoted))
    else
      match ParseGroups(b, groups[..|groups| - 1])
      case Raised(e) => Raised(e)
      case Returned(p) => GroupStep(b, p, groups[|groups| - 1])
  }

  /** One block: an untitled one is skipped (or, with Playwright, raises); a
      titled one appends one entry holding its title to the list. */
  lemma GroupStepAppends(b: Backend, p: Parsed, g: Group)
    ensures var r := GroupStep(b, p, g);
            && (Title(b, g) == Returned(None) ==> r == Returned(p))
            && (r.Raised? ==> r.exc == ValueError || (b == Playwright && r.exc == TimeoutError))
            && (r.Returned? && Title(b, g) != Returned(None) ==>
                  && Title(b, g).Returned? && |r.value.entries| == |p.entries| + 1
                  && r.value.entries[..|p.entries|] == p.entries
                  && r.value.entries[|p.entries|].0 == Title(b, g).value.value)
  {
  }

  /** `product_info` with the promoted keys written. */
  function Promote(info: Info, pr: Promoted): (r: Info)
    ensures r.Keys == info.Keys + (if pr.diagonal.Some? then {ScreenDiagonal} else {})
                                + (if pr.resolution.Some? then {ScreenResolution} else {})
    ensures pr.diagonal.Some? ==> r[ScreenDiagonal] == pr.diagonal.value
    ensures pr.resolution.Some? ==> r[ScreenResolution] == pr.resolution.value
  {
    var withDiagonal := if pr.diagonal.Some? then info[ScreenDiagonal := pr.diagonal.value] else info;
    if pr.resolution.Some? then withDiagonal[ScreenResolution := pr.resolution.value] else withDiagonal
  }

  /** `product_info` after the characteristics block of the scripts. */
  function WithCharacteristics(b: Backend, groups: seq<Group>, info: Info): Outcome<Info> {
    match ParseGroups(b, groups)
    case Raised(e) => Raised(e)
    case Returned(p) => Returned(Promote(info, p.promoted)[Characteristics := Table(p.entries)])
  }

  /** The characteristics block raises exactly when the block loop does, and
      otherwise keeps every key, adds `characteristics` and at most the two
      screen keys. */
  lemma WithCharacteristicsOutcome(b: Backend, groups: seq<Group>, info: Info)
    ensures var r := WithCharacteristics(b, groups, info);
            && (r.Raised? <==> ParseGroups(b, groups).Raised?)
            && (r.Raised? ==> r.exc == ValueError || (b == Playwright && r.exc == TimeoutError))
            && (r.Returned? ==> info.Keys + {Characteristics} <= r.value.Keys)
            && (r.Returned? ==> r.value.Keys <= info.Keys + {Characteristics, ScreenDiagonal, ScreenResolution})
  {
  }

  // ---------------------------------------------------------------------------
  // Characteristics: the loops

  /** Promoting one more row writes the matching promoted key of `product_info`. */
  lemma PromoteRowWrites(base: Info, pr: Promoted, name: string, v: Value)
    ensures Promote(base, PromoteRow(pr, name, v)) ==
            (var i := Promote(base, pr);
             if name == DiagonalLabel then i[ScreenDiagonal := v]
             else if name == ResolutionLabel then i[ScreenResolution := v]
             else i)
  {
    assert DiagonalLabel != ResolutionLabel;
  }

  /** Once a row raises, the rest of the block is not read. */
  lemma {:induction false} RowsRaiseEarly(b: Backend, rows: seq<seq<Node>>, j: nat, start: RowAcc)
    requires j <= |rows| && ParseRows(b, rows[..j], start).Raised?
    ensures ParseRows(b, rows, start) == ParseRows(b, rows[..j], start)
    decreases |rows|
  {
    if j < |rows| {
      assert rows[..|rows| - 1][..j] == rows[..j];
      RowsRaiseEarly(b, rows[..|rows| - 1], j, start);
    } else {
      assert rows[..j] == rows;
    }
  }

  /** Once a block raises, the later blocks are not read. */
  lemma {:induction false} GroupsRaiseEarly(b: Backend, groups: seq<Group>, i: nat)
    requires i <= |groups| && ParseGroups(b, groups[..i]).Raised?
    ensures ParseGroups(b, groups) == ParseGroups(b, groups[..i])
    decreases |groups|
  {
    if i < |groups| {
      assert groups[..|groups| - 1][..i] == groups[..i];
      GroupsRaiseEarly(b, groups[..|groups| - 1], i);
    } else {
      assert groups[..i] == groups;
    }
  }

  /** The row loop of one titled block: fills `items_dict`, and from the
      `finally` block writes the promoted keys of `product_info`. `base` and
      `pr` are the dict before the characteristics block and what had been
      promoted before this block. */
  method ParseBlockRows(b: Backend, rows: seq<seq<Node>>, info0: Info, ghost base: Info, ghost pr: Promoted)
    returns (r: Outcome<Dict>, info: Info, ghost rowPr: Promoted)
    requires info0 == Promote(base, pr)
    ensures r.Raised? ==> ParseRows(b, rows, RowAcc([], pr)) == Raised(r.exc)
    ensures r.Returned? ==> ParseRows(b, rows, RowAcc([], pr)) == Returned(RowAcc(r.value, rowPr))
    ensures info == Promote(base, rowPr)
  {
    info := info0;
    var items: Dict := [];
    rowPr := pr;
    var j := 0;
    while j < |rows|
      invariant 0 <= j <= |rows|
      invariant ParseRows(b, rows[..j], RowAcc([], pr)) == Returned(RowAcc(items, rowPr))
      invariant info == Promote(base, rowPr)
    {
      var cells := rows[j];
      assert rows[..j + 1][..j] == rows[..j];
      if |cells| < 2 {
        RowsRaiseEarly(b, rows, j + 1, RowAcc([], pr));
        return Raised(ValueError), info, rowPr;
      }
      var name: Option<string> := None;
      var value: Option<string> := None;
      if cells[0].text.Some? {
        name := Some(Strip(cells[0].text.value));
        value := CellValue(b, cells[1]);
      }
      if name.Some? && value.Some? {
        items := Put(items, name.value, value.value);
      }
      // the `finally` block
      var v := if value.Some? then Str(value.value) else Null;
      if name == Some(DiagonalLabel) {
        info := info[ScreenDiagonal := v];
      }
      if name == Some(ResolutionLabel) {
        info := info[ScreenResolution := v];
      }
      if name.Some? {
        PromoteRowWrites(base, rowPr, name.value, v);
        rowPr := PromoteRow(rowPr, name.value, v);
      }
      assert ReadRow(b, cells) == Returned(Cell(name, value));
      j := j + 1;
    }
    assert rows[..j] == rows;
    return Returned(items), info, rowPr;
  }

  /** The block loop: skips or raises on a block without a usable title, runs
      the row loop on the others and appends `(title, items_dict)`; at the end
      `product_info["characteristics"]` is the list. */
  method ParseCharacteristics(b: Backend, groups: seq<Group>, info0: Info) returns (r: Outcome<Info>)
    ensures r == WithCharacteristics(b, groups, info0)
  {
    var info := info0;
    var characteristics: seq<Entry> := [];
    ghost var pr := Unpromoted;
    var i := 0;
    while i < |groups|
      invariant 0 <= i <= |groups|
      invariant ParseGroups(b, groups[..i]) == Returned(Parsed(characteristics, pr))
      invariant info == Promote(info0, pr)
    {
      var g := groups[i];
      assert groups[..i + 1][..i] == groups[..i];
      if g.heading.None? {
        if b == Playwright {
          GroupsRaiseEarly(b, groups, i + 1);
          return Raised(TimeoutError);
        }
        i := i + 1;
        continue;
      }
      var heading := g.heading.value;
      if heading.text.None? {
        i := i + 1;
        continue;
      }
      var title := Strip(heading.text.value);
      var items;
      ghost var rowPr;
      items, info, rowPr := ParseBlockRows(b, g.rows, info, info0, pr);
      if items.Raised? {
        GroupsRaiseEarly(b, groups, i + 1);
        return Raised(items.exc);
      }
      characteristics := characteristics + [(title, items.value)];
      pr := rowPr;
      i := i + 1;
    }
    assert groups[..i] == groups;
    info := info[Characteristics := Table(characteristics)];
    return Returned(info);
  }
}
