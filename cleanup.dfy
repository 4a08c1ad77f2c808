/**
 * The three edits applied to an invoice's print view before it is rendered:
 * `clean_units_column`, `clean_item_names` and `remove_payment_method`. The
 * rendered document is abstracted to its table rows and to the list of its
 * other elements, both in document order; the edits change them in place.
 */
module Cleanup {
  import opened Wrappers
  import opened Chars
  import opened ItemNames

  datatype CellTag = Th | Td

  datatype Cell = Cell(tag: CellTag, text: string)

  /** Where a `tr` sits in its table. */
  datatype Section = Head | Body | Foot

  /** A `tr` and its `th`/`td` cells, in order. */
  datatype Row = Row(section: Section, cells: seq<Cell>)

  /** An element outside the tables: its tag name and its class list. */
  datatype Element = Element(name: string, classes: seq<string>)

  /** The selector `div.gap-1` that stands for the payment-method block. */
  predicate IsPaymentMethodBlock(e: Element) {
    e.name == "div" && "gap-1" in e.classes
  }

  // ---------------------------------------------------------------- units column

  /** `clean_units_column` on one row: a row with more than one cell loses its
      second cell and keeps the others in order; a shorter row is left alone. */
  function DropUnitsCell(r: Row): (d: Row)
    ensures d.section == r.section
    ensures |r.cells| > 1 ==>
      (|d.cells| == |r.cells| - 1 && d.cells[0] == r.cells[0]
       && forall k :: 1 <= k < |d.cells| ==> d.cells[k] == r.cells[k + 1])
    ensures |r.cells| <= 1 ==> d == r
  {
    if |r.cells| > 1 then r.(cells := r.cells[..1] + r.cells[2..]) else r
  }

  /** Putting the removed cell back in second place restores the row. */
  lemma DropUnitsCellInverse(r: Row)
    requires |r.cells| > 1
    ensures DropUnitsCell(r).cells[..1] + [r.cells[1]] + DropUnitsCell(r).cells[1..] == r.cells
  {
  }

  // ---------------------------------------------------------------- item names

  /** `row.querySelector("td")`: the index of the first data cell, if any. */
  function FirstDataCell(cells: seq<Cell>): (r: Option<nat>)
    ensures r.Some? ==>
      (r.value < |cells| && cells[r.value].tag == Td
       && forall k :: 0 <= k < r.value ==> cells[k].tag == Th)
    ensures r.None? ==> forall k :: 0 <= k < |cells| ==> cells[k].tag == Th
  {
    if cells == [] then None
    else if cells[0].tag == Td then Some(0)
    else
      match FirstDataCell(cells[1..])
      case Some(k) => Some(k + 1)
      case None =>
        assert cells[0].tag == Th;
        assert forall k :: 1 <= k < |cells| ==> cells[k] == cells[1..][k - 1];
        None
  }

  /** `clean_item_names` on one row: in a body row, the first data cell's text
      becomes its cleaned name; every other cell and every other row is kept. */
  function CleanItemRow(r: Row): (c: Row)
    ensures c.section == r.section && |c.cells| == |r.cells|
    ensures forall k :: 0 <= k < |r.cells| ==> c.cells[k].tag == r.cells[k].tag
    ensures forall k :: 0 <= k < |r.cells| ==>
      c.cells[k].text == (if r.section == Body && FirstDataCell(r.cells) == Some(k)
                          then CleanName(r.cells[k].text) else r.cells[k].text)
  {
    if r.section == Body then
      match FirstDataCell(r.cells)
      case Some(j) => r.(cells := r.cells[j := Cell(Td, CleanName(r.cells[j].text))])
      case None => r
    else r
  }

  /** When a body row starts with a data cell, removing the units cell and
      cleaning the name touch different cells, so either order gives the same row. */
  lemma UnitsAndNamesCommute(r: Row)
    requires r.cells == [] || r.cells[0].tag == Td
    ensures CleanItemRow(DropUnitsCell(r)) == DropUnitsCell(CleanItemRow(r))
  {
  }

  /** The shape on which the two edits disagree: a body row that starts with a
      header cell and then a data cell (the units cell), and whose first data
      cell after the units cell has text the clean-up would change. With units
      first that cell is cleaned; with names first the units cell is cleaned
      and then removed. */
  predicate NameMovesUnderUnits(r: Row) {
    r.section == Body && |r.cells| > 2 && r.cells[0].tag == Th && r.cells[1].tag == Td
    && var f := FirstDataCell(r.cells[2..]);
       f.Some? && CleanName(r.cells[2 + f.value].text) != r.cells[2 + f.value].text
  }

  /** The first data cell behind a header cell is the first data cell of the rest, one further on. */
  lemma FirstDataCellBehindHeader(cells: seq<Cell>)
    requires cells != [] && cells[0].tag == Th
    ensures FirstDataCell(cells) ==
      (match FirstDataCell(cells[1..]) case Some(k) => Some(k + 1) case None => None)
  {
  }

  /** Without its units cell, a row keeps its first cell followed by everything after the units cell. */
  lemma DropUnitsCellShape(r: Row)
    requires |r.cells| > 1
    ensures DropUnitsCell(r) == Row(r.section, [r.cells[0]] + r.cells[2..])
  {
    assert r.cells[..1] == [r.cells[0]];
  }

  /** A header cell in front of a body row is passed over by the name clean-up. */
  lemma CleanItemRowBehindHeader(cells: seq<Cell>)
    requires cells != [] && cells[0].tag == Th
    ensures CleanItemRow(Row(Body, cells)) == Row(Body, [cells[0]] + CleanItemRow(Row(Body, cells[1..])).cells)
  {
    var rest := cells[1..];
    FirstDataCellBehindHeader(cells);
    match FirstDataCell(rest)
    case None =>
      assert cells == [cells[0]] + rest;
    case Some(j) =>
      var v := Cell(Td, CleanName(rest[j].text));
      assert cells[j + 1 := v] == [cells[0]] + rest[j := v];
  }

  /** The name clean-up leaves a row as it is exactly when the row is not a body
      row, has no data cell, or its first data cell's text is already clean. */
  lemma CleanItemRowUnchangedIff(r: Row)
    ensures CleanItemRow(r) == r <==>
      !(r.section == Body && FirstDataCell(r.cells).Some?
        && CleanName(r.cells[FirstDataCell(r.cells).value].text) != r.cells[FirstDataCell(r.cells).value].text)
  {
    if r.section == Body && FirstDataCell(r.cells).Some? {
      var j := FirstDataCell(r.cells).value;
      if CleanName(r.cells[j].text) != r.cells[j].text {
        assert CleanItemRow(r).cells[j] != r.cells[j];
      } else {
        assert r.cells[j] == Cell(Td, CleanName(r.cells[j].text));
        assert r.cells[j := r.cells[j]] == r.cells;
      }
    }
  }

  /** Both orders, on a body row that starts with a header cell followed by a header cell. */
  lemma CommuteBehindTwoHeaders(r: Row)
    requires r.section == Body && |r.cells| > 1 && r.cells[0].tag == Th && r.cells[1].tag == Th
    ensures CleanItemRow(DropUnitsCell(r)) == DropUnitsCell(CleanItemRow(r))
  {
    var c0, rest := r.cells[0], r.cells[2..];
    var tail := CleanItemRow(Row(Body, rest)).cells;
    assert r == Row(Body, r.cells);
    CleanItemRowBehindHeader(r.cells);
    assert r.cells[1..][1..] == rest;
    CleanItemRowBehindHeader(r.cells[1..]);
    var x := CleanItemRow(r);
    assert x.cells == [c0] + ([r.cells[1]] + tail);
    DropUnitsCellShape(x);
    assert x.cells[2..] == tail;
    DropUnitsCellShape(r);
    var d := [c0] + rest;
    assert d[1..] == rest;
    CleanItemRowBehindHeader(d);
  }

  /** Names first, on a body row whose header cell is followed by the units
      data cell: the cleaned cell is the units cell, which is then removed. */
  lemma NamesFirstCleansUnitsCell(r: Row)
    requires r.section == Body && |r.cells| > 1 && r.cells[0].tag == Th && r.cells[1].tag == Td
    ensures DropUnitsCell(CleanItemRow(r)) == DropUnitsCell(r)
  {
    FirstDataCellBehindHeader(r.cells);
    var c := CleanItemRow(r);
    assert c.cells == r.cells[1 := c.cells[1]];
  }

  /** Units first, on the same row: the cleaned cell is the first data cell after the units cell. */
  lemma UnitsFirstCleansNextCell(r: Row)
    requires r.section == Body && |r.cells| > 1 && r.cells[0].tag == Th && r.cells[1].tag == Td
    ensures CleanItemRow(DropUnitsCell(r)) == DropUnitsCell(r) <==> !NameMovesUnderUnits(r)
  {
    var rest := r.cells[2..];
    DropUnitsCellShape(r);
    assert ([r.cells[0]] + rest)[1..] == rest;
    CleanItemRowBehindHeader([r.cells[0]] + rest);
    CleanItemRowUnchangedIff(Row(Body, rest));
    var tail := CleanItemRow(Row(Body, rest)).cells;
    if tail != rest {
      assert ([r.cells[0]] + tail)[1..] != ([r.cells[0]] + rest)[1..];
    }
    if FirstDataCell(rest).Some? {
      assert rest[FirstDataCell(rest).value] == r.cells[2 + FirstDataCell(rest).value];
    }
  }

  /** The two edits commute on every row except the shape `NameMovesUnderUnits`
      describes; `Document.Transform` fixes the pipeline's order, units first. */
  lemma EditsCommuteIff(r: Row)
    ensures CleanItemRow(DropUnitsCell(r)) == DropUnitsCell(CleanItemRow(r)) <==> !NameMovesUnderUnits(r)
  {
    if r.section != Body || |r.cells| <= 1 {
    } else if r.cells[0].tag == Td {
      UnitsAndNamesCommute(r);
    } else if r.cells[1].tag == Th {
      CommuteBehindTwoHeaders(r);
    } else {
      NamesFirstCleansUnitsCell(r);
      UnitsFirstCleansNextCell(r);
    }
  }

  /** A concrete row of the disagreeing shape: a header cell, the units cell and
      a name padded with whitespace, which is cleaned in one order and not in the other. */
  lemma OrderMatters(r: Row, header: string, units: string, name: string)
    requires r == Row(Body, [Cell(Th, header), Cell(Td, units), Cell(Td, name)])
    requires '(' !in name && name != [] && IsJsSpace(name[0])
    ensures CleanItemRow(DropUnitsCell(r)).cells[1].text == CleanName(name)
    ensures DropUnitsCell(CleanItemRow(r)).cells[1].text == name
    ensures NameMovesUnderUnits(r)
    ensures CleanItemRow(DropUnitsCell(r)) != DropUnitsCell(CleanItemRow(r))
  {
    PlainNameTrimmed(name);
    assert r.cells[2..] == [Cell(Td, name)];
    EditsCommuteIff(r);
  }

  // ---------------------------------------------------------------- payment method

  /** `document.querySelector("div.gap-1")`: the first marked element, if any. */
  function FirstPaymentBlock(es: seq<Element>): (r: Option<nat>)
    ensures r.Some? ==>
      (r.value < |es| && IsPaymentMethodBlock(es[r.value])
       && forall k :: 0 <= k < r.value ==> !IsPaymentMethodBlock(es[k]))
    ensures r.None? ==> forall k :: 0 <= k < |es| ==> !IsPaymentMethodBlock(es[k])
  {
    if es == [] then None
    else if IsPaymentMethodBlock(es[0]) then Some(0)
    else
      match FirstPaymentBlock(es[1..])
      case Some(k) => Some(k + 1)
      case None => None
  }

  /** `remove_payment_method`: the element list without its first marked element. */
  function RemovePaymentBlock(es: seq<Element>): seq<Element> {
    match FirstPaymentBlock(es)
    case Some(k) => es[..k] + es[k + 1..]
    case None => es
  }

  /** The number of marked elements. */
  function PaymentBlockCount(es: seq<Element>): nat {
    if es == [] then 0 else (if IsPaymentMethodBlock(es[0]) then 1 else 0) + PaymentBlockCount(es[1..])
  }

  /** The unmarked elements, in order. */
  function Unmarked(es: seq<Element>): seq<Element> {
    if es == [] then [] else (if IsPaymentMethodBlock(es[0]) then [] else [es[0]]) + Unmarked(es[1..])
  }

  /** A list without marked elements has none to count and is its own unmarked part. */
  lemma {:induction false} AllUnmarked(es: seq<Element>)
    requires forall j :: 0 <= j < |es| ==> !IsPaymentMethodBlock(es[j])
    ensures PaymentBlockCount(es) == 0 && Unmarked(es) == es
  {
    if es != [] {
      AllUnmarked(es[1..]);
      assert es == [es[0]] + es[1..];
    }
  }

  lemma {:induction false} CountAppend(a: seq<Element>, b: seq<Element>)
    ensures PaymentBlockCount(a + b) == PaymentBlockCount(a) + PaymentBlockCount(b)
  {
    if a != [] {
      CountAppend(a[1..], b);
      assert (a + b)[1..] == a[1..] + b;
    } else {
      assert a + b == b;
    }
  }

  lemma {:induction false} UnmarkedAppend(a: seq<Element>, b: seq<Element>)
    ensures Unmarked(a + b) == Unmarked(a) + Unmarked(b)
  {
    if a != [] {
      UnmarkedAppend(a[1..], b);
      assert (a + b)[1..] == a[1..] + b;
    } else {
      assert a + b == b;
    }
  }

  /** A marked element in front counts once and is not kept. */
  lemma MarkedHead(e: Element, rest: seq<Element>)
    requires IsPaymentMethodBlock(e)
    ensures PaymentBlockCount([e] + rest) == 1 + PaymentBlockCount(rest)
    ensures Unmarked([e] + rest) == Unmarked(rest)
  {
  }

  /** Removing the first marked element, at `k`, removes one marked element
      and keeps every unmarked one. */
  lemma RemoveFirstMarked(es: seq<Element>, k: nat)
    requires k < |es| && IsPaymentMethodBlock(es[k])
    requires forall j :: 0 <= j < k ==> !IsPaymentMethodBlock(es[j])
    ensures PaymentBlockCount(es) == PaymentBlockCount(es[..k] + es[k + 1..]) + 1
    ensures Unmarked(es[..k] + es[k + 1..]) == Unmarked(es)
  {
    var pre, rest := es[..k], es[k + 1..];
    var mid := [es[k]] + rest;
    MarkedHead(es[k], rest);
    assert es[k..] == mid;
    assert es == pre + mid by { assert es == es[..k] + es[k..]; }
    assert forall j :: 0 <= j < |pre| ==> pre[j] == es[j];
    AllUnmarked(pre);
    CountAppend(pre, mid);
    UnmarkedAppend(pre, mid);
    CountAppend(pre, rest);
    UnmarkedAppend(pre, rest);
  }

  /** At most one element goes, and only a marked one: exactly one marked element
      disappears when there is one, nothing changes when there is none, and the
      unmarked elements keep their order. */
  lemma RemovePaymentBlockEffect(es: seq<Element>)
    ensures PaymentBlockCount(es) == 0 <==> RemovePaymentBlock(es) == es
    ensures PaymentBlockCount(es) > 0 ==>
      (|RemovePaymentBlock(es)| == |es| - 1
       && PaymentBlockCount(RemovePaymentBlock(es)) == PaymentBlockCount(es) - 1)
    ensures Unmarked(RemovePaymentBlock(es)) == Unmarked(es)
  {
    match FirstPaymentBlock(es)
    case None =>
      AllUnmarked(es);
    case Some(k) =>
      RemoveFirstMarked(es, k);
  }

  /** A second removal is a no-op exactly when the document held at most one
      marked element; otherwise it removes the next one. */
  lemma RemoveTwiceIsOnceIff(es: seq<Element>)
    ensures RemovePaymentBlock(RemovePaymentBlock(es)) == RemovePaymentBlock(es)
      <==> PaymentBlockCount(es) <= 1
  {
    RemovePaymentBlockEffect(es);
    RemovePaymentBlockEffect(RemovePaymentBlock(es));
  }

  // ---------------------------------------------------------------- the document

  /** The print view of one invoice, as the three edits see it. */
  class Document {
    /** Every `tr` of every table, in document order. */
    var rows: seq<Row>
    /** The other elements, in document order. */
    var elements: seq<Element>

    constructor (rows: seq<Row>, elements: seq<Element>)
      ensures this.rows == rows && this.elements == elements
    {
      this.rows := rows;
      this.elements := elements;
    }

    /** `clean_units_column`: every row loses its second cell if it has more than one. */
    method CleanUnitsColumn()
      modifies this
      ensures |rows| == |old(rows)|
      ensures forall k :: 0 <= k < |rows| ==> rows[k] == DropUnitsCell(old(rows)[k])
      ensures elements == old(elements)
    {
      var i := 0;
      while i < |rows|
        invariant i <= |rows| == |old(rows)|
        invariant forall k :: 0 <= k < i ==> rows[k] == DropUnitsCell(old(rows)[k])
        invariant forall k :: i <= k < |rows| ==> rows[k] == old(rows)[k]
        invariant elements == old(elements)
      {
        rows := rows[i := DropUnitsCell(rows[i])];
        i := i + 1;
      }
    }

    /** `clean_item_names`: the first data cell of every body row gets its cleaned name. */
    method CleanItemNames()
      modifies this
      ensures |rows| == |old(rows)|
      ensures forall k :: 0 <= k < |rows| ==> rows[k] == CleanItemRow(old(rows)[k])
      ensures elements == old(elements)
    {
      var i := 0;
      while i < |rows|
        invariant i <= |rows| == |old(rows)|
        invariant forall k :: 0 <= k < i ==> rows[k] == CleanItemRow(old(rows)[k])
        invariant forall k :: i <= k < |rows| ==> rows[k] == old(rows)[k]
        invariant elements == old(elements)
      {
        rows := rows[i := CleanItemRow(rows[i])];
        i := i + 1;
      }
    }

    /** `remove_payment_method`: the first marked element is removed, if there is one. */
    method RemovePaymentMethod()
      modifies this
      ensures elements == RemovePaymentBlock(old(elements))
      ensures rows == old(rows)
    {
      elements := RemovePaymentBlock(elements);
    }

    /** The edits of `modify_and_save_invoice`, in its order: units column, item names, payment method. */
    method Transform()
      modifies this
      ensures |rows| == |old(rows)|
      ensures forall k :: 0 <= k < |rows| ==> rows[k] == CleanItemRow(DropUnitsCell(old(rows)[k]))
      ensures elements == RemovePaymentBlock(old(elements))
    {
      CleanUnitsColumn();
      CleanItemNames();
      RemovePaymentMethod();
    }
  }
}
