/** What the characteristics parser promises, each stated against a reference
    definition that reads the document directly: which blocks appear and in
    what order, what each block's dict holds, what the promoted keys end up as,
    and when a short row aborts the whole extraction. */
module Characteristics {
  import opened Base
  import opened Schema
  import opened Dom
  import opened Extraction

  // ---------------------------------------------------------------------------
  // Blocks: titled ones are kept, in document order, even when empty

  /** The titles of the blocks that have a readable `h3`, in document order. */
  function TitledBlocks(b: Backend, groups: seq<Group>): seq<string>
    decreases |groups|
  {
    if groups == [] then []
    else
      var last := groups[|groups| - 1];
      TitledBlocks(b, groups[..|groups| - 1])
        + (match Title(b, last) case Returned(Some(t)) => [t] case _ => [])
  }

  function TitlesOf(entries: seq<Entry>): (ts: seq<string>)
    ensures |ts| == |entries|
    ensures forall i :: 0 <= i < |entries| ==> ts[i] == entries[i].0
  {
    if entries == [] then [] else [entries[0].0] + TitlesOf(entries[1..])
  }

  /** `characteristics_list` has one entry per titled block, in document order,
      whatever the block's rows held: untitled blocks are skipped and a block
      whose dict stays empty is still appended. */
  lemma {:induction false} EntriesFollowTitledBlocks(b: Backend, groups: seq<Group>)
    requires ParseGroups(b, groups).Returned?
    ensures TitlesOf(ParseGroups(b, groups).value.entries) == TitledBlocks(b, groups)
    decreases |groups|
  {
    if groups != [] {
      var pre, g := groups[..|groups| - 1], groups[|groups| - 1];
      EntriesFollowTitledBlocks(b, pre);
      var p := ParseGroups(b, pre).value;
      match Title(b, g)
      case Returned(Some(t)) =>
        var acc := ParseRows(b, g.rows, RowAcc([], p.promoted)).value;
        assert TitlesOf(p.entries + [(t, acc.items)]) == TitlesOf(p.entries) + [t];
      case _ =>
    }
  }

  /** A titled block without rows is appended with an empty dict. */
  lemma EmptyTitledBlockKept(b: Backend, p: Parsed, g: Group, t: string)
    requires Title(b, g) == Returned(Some(t)) && g.rows == []
    ensures GroupStep(b, p, g) == Returned(Parsed(p.entries + [(t, [])], p.promoted))
  {
  }

  // ---------------------------------------------------------------------------
  // Rows: the dict keeps first-insertion order and the last value

  /** The `(name, value)` pairs of the rows whose name and value could both be
      read, in row order; these are the assignments `items_dict[name] = value`. */
  function Stored(b: Backend, rows: seq<seq<Node>>): seq<(string, string)>
    decreases |rows|
  {
    if rows == [] then []
    else
      Stored(b, rows[..|rows| - 1])
        + (match ReadRow(b, rows[|rows| - 1])
           case Returned(Cell(Some(n), Some(v))) => [(n, v)]
           case _ => [])
  }

  /** Each name once, where it first occurs. */
  function FirstOccurrences(s: seq<string>): seq<string>
    decreases |s|
  {
    if s == [] then []
    else
      var pre := s[..|s| - 1];
      if s[|s| - 1] in pre then FirstOccurrences(pre) else FirstOccurrences(pre) + [s[|s| - 1]]
  }

  /** The value of the last pair named `k`. */
  function LastValue(pairs: seq<(string, string)>, k: string): Option<string>
    decreases |pairs|
  {
    if pairs == [] then None
    else if pairs[|pairs| - 1].0 == k then Some(pairs[|pairs| - 1].1)
    else LastValue(pairs[..|pairs| - 1], k)
  }

  lemma {:induction false} FirstOccurrencesMembers(s: seq<string>, x: string)
    ensures x in FirstOccurrences(s) <==> x in s
    decreases |s|
  {
    if s != [] {
      var pre := s[..|s| - 1];
      FirstOccurrencesMembers(pre, x);
      assert s == pre + [s[|s| - 1]];
    }
  }

  lemma {:induction false} KeysAppend(d: Dict, x: (string, string))
    ensures Keys(d + [x]) == Keys(d) + [x.0]
    decreases |d|
  {
    if d != [] {
      assert (d + [x])[1..] == d[1..] + [x];
      KeysAppend(d[1..], x);
    }
  }

  /** One more row: the dict and the stored pairs grow together. */
  lemma RowsSnoc(b: Backend, rows: seq<seq<Node>>, pr: Promoted)
    requires rows != [] && ParseRows(b, rows, RowAcc([], pr)).Returned?
    ensures var pre := rows[..|rows| - 1];
            var c := ReadRow(b, rows[|rows| - 1]);
            && ParseRows(b, pre, RowAcc([], pr)).Returned? && c.Returned?
            && ParseRows(b, rows, RowAcc([], pr)).value == RowStep(ParseRows(b, pre, RowAcc([], pr)).value, c.value)
            && Stored(b, rows) == Stored(b, pre) + (if c.value.name.Some? && c.value.value.Some? then [(c.value.name.value, c.value.value.value)] else [])
  {
  }

  /** The dict of a block lists every stored name once, in the order of the
      first row that stored it: a duplicate name keeps its first place. */
  lemma {:induction false} ItemsInFirstInsertionOrder(b: Backend, rows: seq<seq<Node>>, pr: Promoted)
    requires ParseRows(b, rows, RowAcc([], pr)).Returned?
    ensures Keys(ParseRows(b, rows, RowAcc([], pr)).value.items) == FirstOccurrences(Keys(Stored(b, rows)))
    decreases |rows|
  {
    if rows != [] {
      var pre := rows[..|rows| - 1];
      RowsSnoc(b, rows, pr);
      ItemsInFirstInsertionOrder(b, pre, pr);
      var c := ReadRow(b, rows[|rows| - 1]).value;
      var s := Stored(b, pre);
      if c.name.Some? && c.value.Some? {
        var n := c.name.value;
        KeysAppend(s, (n, c.value.value));
        var ks := Keys(s) + [n];
        assert ks[..|ks| - 1] == Keys(s);
        FirstOccurrencesMembers(Keys(s), n);
      } else {
        assert Stored(b, rows) == s;
      }
    }
  }

  /** Each stored name maps to the value of the last row with that name: a
      duplicate takes the later value. */
  lemma {:induction false} ItemsHoldLastValues(b: Backend, rows: seq<seq<Node>>, pr: Promoted, k: string)
    requires ParseRows(b, rows, RowAcc([], pr)).Returned?
    ensures Get(ParseRows(b, rows, RowAcc([], pr)).value.items, k) == LastValue(Stored(b, rows), k)
    decreases |rows|
  {
    if rows != [] {
      var pre := rows[..|rows| - 1];
      RowsSnoc(b, rows, pr);
      ItemsHoldLastValues(b, pre, pr, k);
      var c := ReadRow(b, rows[|rows| - 1]).value;
      var s := Stored(b, pre);
      if c.name.Some? && c.value.Some? {
        var x := (c.name.value, c.value.value);
        assert (s + [x])[..|s|] == s;
      } else {
        assert Stored(b, rows) == s;
      }
    }
  }

  /** The blocks that have a readable `h3`, in document order: the blocks the
      row loop visits. */
  function TitledGroups(b: Backend, groups: seq<Group>): seq<Group>
    decreases |groups|
  {
    if groups == [] then []
    else
      var last := groups[|groups| - 1];
      TitledGroups(b, groups[..|groups| - 1])
        + (match Title(b, last) case Returned(Some(_)) => [last] case _ => [])
  }

  /** `items` is the dict the row loop builds from block `g`: its stored names
      once each in first-insertion order, each with its last value. */
  ghost predicate BlockItems(b: Backend, g: Group, items: Dict) {
    && Keys(items) == FirstOccurrences(Keys(Stored(b, g.rows)))
    && forall k :: Get(items, k) == LastValue(Stored(b, g.rows), k)
  }

  /** The j-th entry of `characteristics_list` holds the dict of the j-th
      titled block. */
  lemma {:induction false} EntriesHoldBlockItems(b: Backend, groups: seq<Group>)
    requires ParseGroups(b, groups).Returned?
    ensures var entries := ParseGroups(b, groups).value.entries;
            && |entries| == |TitledGroups(b, groups)|
            && forall j :: 0 <= j < |entries| ==> BlockItems(b, TitledGroups(b, groups)[j], entries[j].1)
    decreases |groups|
  {
    if groups != [] {
      var pre, g := groups[..|groups| - 1], groups[|groups| - 1];
      EntriesHoldBlockItems(b, pre);
      var p := ParseGroups(b, pre).value;
      match Title(b, g)
      case Returned(Some(t)) =>
        var acc := ParseRows(b, g.rows, RowAcc([], p.promoted)).value;
        ItemsInFirstInsertionOrder(b, g.rows, p.promoted);
        forall k
          ensures Get(acc.items, k) == LastValue(Stored(b, g.rows), k)
        {
          ItemsHoldLastValues(b, g.rows, p.promoted, k);
        }
        assert BlockItems(b, g, acc.items);
        assert TitledGroups(b, groups) == TitledGroups(b, pre) + [g];
      case Returned(None) =>
        assert TitledGroups(b, groups) == TitledGroups(b, pre);
      case Raised(_) =>
    }
  }

  // ---------------------------------------------------------------------------
  // Promotion: the last row anywhere named after a promoted key decides it

  /** The rows of the titled blocks, in document order: the rows the row loop visits. */
  function ParsedRows(b: Backend, groups: seq<Group>): seq<seq<Node>>
    decreases |groups|
  {
    if groups == [] then []
    else
      var last := groups[|groups| - 1];
      ParsedRows(b, groups[..|groups| - 1])
        + (match Title(b, last) case Returned(Some(_)) => last.rows case _ => [])
  }

  /** What the last row whose name reads `wanted` promotes: its value, or None
      when its value could not be read; nothing when there is no such row. */
  function LastLabelled(b: Backend, rows: seq<seq<Node>>, wanted: string): Option<Value>
    decreases |rows|
  {
    if rows == [] then None
    else
      match ReadRow(b, rows[|rows| - 1])
      case Returned(Cell(Some(n), v)) =>
        if n == wanted then Some(if v.Some? then Str(v.value) else Null)
        else LastLabelled(b, rows[..|rows| - 1], wanted)
      case _ => LastLabelled(b, rows[..|rows| - 1], wanted)
  }

  /** A later write wins over an earlier one. */
  function Override(earlier: Option<Value>, later: Option<Value>): Option<Value> {
    if later.Some? then later else earlier
  }

  lemma {:induction false} LastLabelledAppend(b: Backend, xs: seq<seq<Node>>, ys: seq<seq<Node>>, wanted: string)
    ensures LastLabelled(b, xs + ys, wanted) == Override(LastLabelled(b, xs, wanted), LastLabelled(b, ys, wanted))
    decreases |ys|
  {
    if ys == [] {
      assert xs + ys == xs;
    } else {
      var zs := xs + ys;
      assert zs[..|zs| - 1] == xs + ys[..|ys| - 1];
      assert zs[|zs| - 1] == ys[|ys| - 1];
      LastLabelledAppend(b, xs, ys[..|ys| - 1], wanted);
    }
  }

  lemma {:induction false} RowsPromote(b: Backend, rows: seq<seq<Node>>, start: RowAcc)
    requires ParseRows(b, rows, start).Returned?
    ensures ParseRows(b, rows, start).value.promoted ==
            Promoted(Override(start.promoted.diagonal, LastLabelled(b, rows, DiagonalLabel)),
                     Override(start.promoted.resolution, LastLabelled(b, rows, ResolutionLabel)))
    decreases |rows|
  {
    if rows != [] {
      RowsPromote(b, rows[..|rows| - 1], start);
      assert DiagonalLabel != ResolutionLabel;
    }
  }

  /** After the block loop, `screen_diagonal` and `screen_resolution` come from
      the last parsed row, in any block, whose name is exactly the wanted; they
      are not written when no such row exists. */
  lemma {:induction false} PromotedFromLastLabelledRow(b: Backend, groups: seq<Group>)
    requires ParseGroups(b, groups).Returned?
    ensures ParseGroups(b, groups).value.promoted ==
            Promoted(LastLabelled(b, ParsedRows(b, groups), DiagonalLabel),
                     LastLabelled(b, ParsedRows(b, groups), ResolutionLabel))
    decreases |groups|
  {
    if groups != [] {
      var pre, g := groups[..|groups| - 1], groups[|groups| - 1];
      PromotedFromLastLabelledRow(b, pre);
      var p := ParseGroups(b, pre).value;
      match Title(b, g)
      case Returned(Some(t)) =>
        RowsPromote(b, g.rows, RowAcc([], p.promoted));
        LastLabelledAppend(b, ParsedRows(b, pre), g.rows, DiagonalLabel);
        LastLabelledAppend(b, ParsedRows(b, pre), g.rows, ResolutionLabel);
      case Returned(None) =>
        assert ParseGroups(b, groups) == Returned(p);
        assert ParsedRows(b, groups) == ParsedRows(b, pre) + [] == ParsedRows(b, pre);
      case Raised(_) =>
    }
  }

  /** A row whose value cannot be read (for BeautifulSoup: no inner `<a>`)
      stays out of the dict, yet its `finally` still promotes None, overwriting
      what an earlier row had promoted. */
  lemma UnreadValueStillPromotes(b: Backend, rows: seq<seq<Node>>, start: RowAcc, wanted: string)
    requires rows != [] && ParseRows(b, rows, start).Returned?
    requires ReadRow(b, rows[|rows| - 1]) == Returned(Cell(Some(wanted), None))
    ensures ParseRows(b, rows, start).value.items == ParseRows(b, rows[..|rows| - 1], start).value.items
    ensures wanted == DiagonalLabel ==> ParseRows(b, rows, start).value.promoted.diagonal == Some(Null)
    ensures wanted == ResolutionLabel ==> ParseRows(b, rows, start).value.promoted.resolution == Some(Null)
  {
  }

  // ---------------------------------------------------------------------------
  // Short rows abort the extraction

  predicate HasShortRow(rows: seq<seq<Node>>) {
    exists i :: 0 <= i < |rows| && |rows[i]| < 2
  }

  lemma HasShortRowAppend(xs: seq<seq<Node>>, ys: seq<seq<Node>>)
    ensures HasShortRow(xs + ys) <==> HasShortRow(xs) || HasShortRow(ys)
  {
    if HasShortRow(xs + ys) {
      var i :| 0 <= i < |xs + ys| && |(xs + ys)[i]| < 2;
      if i >= |xs| {
        assert ys[i - |xs|] == (xs + ys)[i];
      }
    }
    if HasShortRow(xs) {
      var i :| 0 <= i < |xs| && |xs[i]| < 2;
      assert (xs + ys)[i] == xs[i];
    }
    if HasShortRow(ys) {
      var i :| 0 <= i < |ys| && |ys[i]| < 2;
      assert (xs + ys)[|xs| + i] == ys[i];
    }
  }

  lemma {:induction false} RowsRaiseOnShortRow(b: Backend, rows: seq<seq<Node>>, start: RowAcc)
    ensures ParseRows(b, rows, start).Raised? <==> HasShortRow(rows)
    ensures ParseRows(b, rows, start).Raised? ==> ParseRows(b, rows, start).exc == ValueError
    decreases |rows|
  {
    if rows != [] {
      var pre := rows[..|rows| - 1];
      RowsRaiseOnShortRow(b, pre, start);
      HasShortRowAppend(pre, [rows[|rows| - 1]]);
      assert rows == pre + [rows[|rows| - 1]];
    }
  }

  /** With BeautifulSoup or Selenium, or with Playwright when every block has
      an `h3`, the extraction of the characteristics raises exactly when a row
      of a titled block has fewer than two `span` cells, and what it raises is
      the unpacking's ValueError: no handler turns it into a skipped row. */
  lemma {:induction false} ShortRowRaises(b: Backend, groups: seq<Group>)
    requires b == Playwright ==> forall j :: 0 <= j < |groups| ==> groups[j].heading.Some?
    ensures ParseGroups(b, groups).Raised? <==> HasShortRow(ParsedRows(b, groups))
    ensures ParseGroups(b, groups).Raised? ==> ParseGroups(b, groups).exc == ValueError
    decreases |groups|
  {
    if groups != [] {
      var pre, g := groups[..|groups| - 1], groups[|groups| - 1];
      ShortRowRaises(b, pre);
      var extra := match Title(b, g) case Returned(Some(_)) => g.rows case _ => [];
      HasShortRowAppend(ParsedRows(b, pre), extra);
      if ParseGroups(b, pre).Returned? {
        var p := ParseGroups(b, pre).value;
        RowsRaiseOnShortRow(b, g.rows, RowAcc([], p.promoted));
      }
    }
  }

  /** With Playwright a block without `h3` is not skipped: the locator's
      error escapes and the whole extraction raises. */
  lemma {:induction false} PlaywrightUntitledBlockRaises(groups: seq<Group>, i: nat)
    requires i < |groups| && groups[i].heading.None?
    ensures ParseGroups(Playwright, groups).Raised?
    decreases |groups|
  {
    if i < |groups| - 1 {
      PlaywrightUntitledBlockRaises(groups[..|groups| - 1], i);
    }
  }

  /** With Playwright the first block without `h3` ends the loop with the
      locator's error, unless a short row of an earlier titled block has
      already raised the unpacking's ValueError. */
  lemma {:induction false} PlaywrightFirstUntitledBlock(groups: seq<Group>, i: nat)
    requires i < |groups| && groups[i].heading.None?
    requires forall j :: 0 <= j < i ==> groups[j].heading.Some?
    ensures ParseGroups(Playwright, groups) ==
              Raised(if HasShortRow(ParsedRows(Playwright, groups[..i])) then ValueError else TimeoutError)
    decreases |groups|
  {
    var pre := groups[..|groups| - 1];
    if i < |groups| - 1 {
      assert pre[..i] == groups[..i];
      PlaywrightFirstUntitledBlock(pre, i);
    } else {
      assert pre == groups[..i];
      ShortRowRaises(Playwright, pre);
    }
  }

  // ---------------------------------------------------------------------------
  // Cell normalisation

  /** Selenium and Playwright store the value cell's text with its
      non-breaking spaces made plain and its ends stripped, while the name is
      only stripped: no non-breaking space and no edge whitespace is left. */
  lemma BrowserValueNormalised(b: Backend, cells: seq<Node>)
    requires b != Soup && |cells| >= 2 && cells[0].text.Some? && cells[1].text.Some?
    ensures ReadRow(b, cells).Returned?
    ensures ReadRow(b, cells).value.name == Some(Strip(cells[0].text.value))
    ensures ReadRow(b, cells).value.value == Some(Strip(ReplaceNbsp(cells[1].text.value)))
    ensures var v := ReadRow(b, cells).value.value;
            v.Some? && Nbsp !in v.value && (v.value == [] || (!IsSpace(v.value[0]) && !IsSpace(v.value[|v.value| - 1])))
  {
    StripTrimsBothEnds(ReplaceNbsp(cells[1].text.value));
  }
}
