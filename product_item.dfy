/** One editable order line: its three text cells (product name, unit,
    quantity) form a row of a grid that the arrow keys move through, Enter
    chains from cell to cell and appends a new line from the quantity cell,
    and the ✕ button or the Delete key removes the line once the user
    confirms. Focus is described by the cell a handler asks to focus; the
    request lands only when that cell is rendered. */
module ProductItem {
  import opened Support
  import opened OrderModel
  import opened FieldArrays
  import UploadImage

  datatype Column = ProductName | Unit | Quantity

  datatype Key = ArrowRight | ArrowLeft | ArrowUp | ArrowDown | Enter | Delete | OtherKey

  /** A cell of the grid, addressed by its `data-row` and `data-col`. */
  datatype Cell = Cell(row: int, col: Column)

  /** Place of a column in the fixed order productName → unit → quantity. */
  function Position(c: Column): nat
  {
    match c
    case ProductName => 0
    case Unit => 1
    case Quantity => 2
  }

  predicate IsArrow(key: Key)
  {
    key == ArrowRight || key == ArrowLeft || key == ArrowUp || key == ArrowDown
  }

  /** A grid of `rows` lines renders the three cells of rows 0 .. rows-1. */
  predicate Rendered(rows: int, c: Cell)
  {
    0 <= c.row < rows
  }

  /** `target?.focus()`: focus moves to the requested cell if it is
      rendered and stays where it was otherwise. */
  function FocusAfter(rows: int, current: Cell, request: Option<Cell>): Cell
  {
    if request.Some? && Rendered(rows, request.value) then request.value else current
  }

  /** The outcome of `handleKeyNavigation`: whether the key's default action
      is suppressed, and the cell it asks to focus. */
  datatype Navigation = Navigation(preventDefault: bool, request: Option<Cell>)

  function HandleKeyNavigation(row: int, col: Column, key: Key): (nav: Navigation)
    ensures nav.preventDefault <==> IsArrow(key)
    ensures nav.request.Some? <==> IsArrow(key)
    ensures key == ArrowRight ==>
      nav.request.value.row == row
      && Position(nav.request.value.col) == if Position(col) == 2 then 2 else Position(col) + 1
    ensures key == ArrowLeft ==>
      nav.request.value.row == row
      && Position(nav.request.value.col) == if Position(col) == 0 then 0 else Position(col) - 1
    ensures key == ArrowDown ==> nav.request == Some(Cell(row + 1, col))
    ensures key == ArrowUp ==> nav.request == Some(Cell(row - 1, col))
  {
    if !IsArrow(key) then Navigation(false, None)
    else
      var targetCol :=
        if key == ArrowRight then
          (if col == ProductName then Unit else if col == Unit then Quantity else col)
        else if key == ArrowLeft then
          (if col == Quantity then Unit else if col == Unit then ProductName else col)
        else col;
      var targetRow :=
        if key == ArrowDown then row + 1 else if key == ArrowUp then row - 1 else row;
      Navigation(true, Some(Cell(targetRow, targetCol)))
  }

  /** ArrowLeft undoes ArrowRight wherever ArrowRight moved. */
  lemma LeftUndoesRight(row: int, col: Column)
    requires col != Quantity
    ensures var right := HandleKeyNavigation(row, col, ArrowRight).request.value;
            HandleKeyNavigation(right.row, right.col, ArrowLeft).request == Some(Cell(row, col))
  {
  }

  /** ArrowRight undoes ArrowLeft wherever ArrowLeft moved. */
  lemma RightUndoesLeft(row: int, col: Column)
    requires col != ProductName
    ensures var left := HandleKeyNavigation(row, col, ArrowLeft).request.value;
            HandleKeyNavigation(left.row, left.col, ArrowRight).request == Some(Cell(row, col))
  {
  }

  /** From a rendered cell an arrow key never takes focus out of the grid;
      focus stays put exactly when the requested cell is not rendered (for
      instance ArrowUp in row 0 or ArrowDown in the last row). */
  lemma ArrowKeepsFocusInGrid(rows: int, current: Cell, key: Key)
    requires Rendered(rows, current)
    requires IsArrow(key)
    ensures var request := HandleKeyNavigation(current.row, current.col, key).request;
            var next := FocusAfter(rows, current, request);
            && Rendered(rows, next)
            && (next == current <==> !Rendered(rows, request.value) || request.value == current)
  {
  }

  /** What a key press in one of the three cells does: the Enter chaining
      and, for every other key, the arrow navigation. */
  datatype KeyEffect = KeyEffect(preventDefault: bool, appendRow: bool, request: Option<Cell>)

  function OnCellKeyDown(row: int, col: Column, key: Key): (e: KeyEffect)
    ensures key == Enter ==> e.preventDefault && (e.appendRow <==> col == Quantity)
    ensures key == Enter && col != Quantity ==>
      e.request.Some? && e.request.value.row == row
      && Position(e.request.value.col) == Position(col) + 1
    ensures key == Enter && col == Quantity ==> e.request == Some(Cell(row + 1, ProductName))
    ensures key != Enter ==>
      !e.appendRow
      && e.preventDefault == IsArrow(key)
      && e.request == HandleKeyNavigation(row, col, key).request
  {
    if key == Enter then
      match col
      case ProductName => KeyEffect(true, false, Some(Cell(row, Unit)))
      case Unit => KeyEffect(true, false, Some(Cell(row, Quantity)))
      case Quantity => KeyEffect(true, true, Some(Cell(row + 1, ProductName)))
    else
      var nav := HandleKeyNavigation(row, col, key);
      KeyEffect(nav.preventDefault, false, nav.request)
  }

  /** The line appended by Enter in the quantity cell. */
  const EnterAppendItem: Item := Item("", "", Num(1.0), "Chưa xử lý", Images([]))

  /** The row `handleRemove` asks to focus after removing row `index` of a
      list whose last row is `lastIndex`: the row before when the removed
      row was the last one, the same position otherwise, and nothing when
      that position is negative. */
  function RemovalFocus(index: int, lastIndex: int): (target: Option<int>)
    ensures target.Some? ==> 0 <= target.value <= index
    ensures target.Some? && index != lastIndex ==> target.value == index
    ensures target.Some? && index == lastIndex ==> target.value == index - 1
    ensures target.None? <==> index < 0 || (index == 0 && lastIndex == 0)
  {
    var nextIndex := if index == lastIndex then index - 1 else index;
    if nextIndex >= 0 then Some(nextIndex) else None
  }

  /** Removing a row of a list and focusing where `handleRemove` says:
      focus is requested exactly when rows remain, always on a remaining row,
      on the new last row after removing the last row, and otherwise on the
      row that slid up into the removed row's place. */
  lemma RemovalFocusLands<T>(rows: seq<T>, index: int)
    requires 0 <= index < |rows|
    ensures var after := DropIndex(rows, index);
            var target := RemovalFocus(index, |rows| - 1);
            && (target.None? <==> after == [])
            && (target.Some? ==> 0 <= target.value < |after|)
            && (target.Some? && index == |rows| - 1 ==> target.value == |after| - 1)
            && (index < |rows| - 1 ==> target == Some(index) && after[index] == rows[index + 1])
  {
    var after := DropIndex(rows, index);
    assert |after| == |rows| - 1;
    if index < |rows| - 1 {
      assert after[index] == rows[index + 1];
    }
  }

  /** `handleRemove`: remove the row, then ask to focus the product-name
      cell that `RemovalFocus` names. */
  method HandleRemove(fa: FieldArray, index: int, lastIndex: int) returns (focus: Option<Cell>)
    requires fa.Valid()
    modifies fa
    ensures fa.Valid()
    ensures fa.items == DropIndex(old(fa.items), index)
    ensures fa.keys == DropIndex(old(fa.keys), index)
    ensures fa.nextKey == old(fa.nextKey)
    ensures focus.None? <==> RemovalFocus(index, lastIndex).None?
    ensures focus.Some? ==> focus.value == Cell(RemovalFocus(index, lastIndex).value, ProductName)
  {
    var nextIndex := if index == lastIndex then index - 1 else index;
    fa.Remove(index);
    if nextIndex >= 0 {
      focus := Some(Cell(nextIndex, ProductName));
    } else {
      focus := None;
    }
  }

  /** The ✕ button: the row is removed only when the user confirms. */
  method OnRemoveClick(fa: FieldArray, index: int, lastIndex: int, confirmed: bool)
    returns (focus: Option<Cell>)
    requires fa.Valid()
    modifies fa
    ensures fa.Valid()
    ensures confirmed ==> fa.items == DropIndex(old(fa.items), index)
    ensures confirmed ==> fa.keys == DropIndex(old(fa.keys), index)
    ensures fa.nextKey == old(fa.nextKey)
    ensures confirmed ==> (focus.None? <==> RemovalFocus(index, lastIndex).None?)
    ensures confirmed && focus.Some? ==> focus.value == Cell(RemovalFocus(index, lastIndex).value, ProductName)
    ensures !confirmed ==> fa.items == old(fa.items) && fa.keys == old(fa.keys) && focus.None?
  {
    if confirmed {
      focus := HandleRemove(fa, index, lastIndex);
    } else {
      focus := None;
    }
  }

  /** The window-wide key listener of a line: Delete while that line's
      product-name cell has focus removes the line once the user confirms;
      any other key, or a declined confirmation, changes nothing. */
  method OnWindowKeyDown(fa: FieldArray, index: int, lastIndex: int,
                         productNameFocused: bool, key: Key, confirmed: bool)
    returns (focus: Option<Cell>)
    requires fa.Valid()
    modifies fa
    ensures fa.Valid()
    ensures var removes := productNameFocused && key == Delete && confirmed;
            && (removes ==> fa.items == DropIndex(old(fa.items), index))
            && (removes ==> fa.keys == DropIndex(old(fa.keys), index))
            && (removes ==> (focus.None? <==> RemovalFocus(index, lastIndex).None?))
            && (removes && focus.Some? ==> focus.value == Cell(RemovalFocus(index, lastIndex).value, ProductName))
            && (!removes ==> fa.items == old(fa.items) && fa.keys == old(fa.keys) && focus.None?)
    ensures fa.nextKey == old(fa.nextKey)
  {
    focus := None;
    if productNameFocused && key == Delete {
      focus := OnRemoveClick(fa, index, lastIndex, confirmed);
    }
  }

  /** The `onKeyDown` of a cell in row `row`: Enter in the quantity cell
      appends one new line before asking for focus; nothing else changes
      the rows. */
  method OnKeyDown(fa: FieldArray, row: int, col: Column, key: Key) returns (effect: KeyEffect)
    requires fa.Valid()
    modifies fa
    ensures fa.Valid()
    ensures effect == OnCellKeyDown(row, col, key)
    ensures effect.appendRow ==> fa.items == old(fa.items) + [EnterAppendItem]
    ensures effect.appendRow ==> fa.keys == old(fa.keys) + [old(fa.nextKey)]
    ensures !effect.appendRow ==> fa.items == old(fa.items) && fa.keys == old(fa.keys)
    ensures !effect.appendRow ==> fa.nextKey == old(fa.nextKey)
    ensures effect.appendRow && 0 <= row < |old(fa.items)| ==>
      && Rendered(|fa.items|, effect.request.value)
      && (effect.request.value.row == |fa.items| - 1 <==> row == |old(fa.items)| - 1)
  {
    effect := OnCellKeyDown(row, col, key);
    if effect.appendRow {
      fa.Append(EnterAppendItem);
    }
  }

  /** The line's image editor reports a finished read (`onChange` wired to
      `setValue` on the line's `image`): a string result is appended to the
      images the line holds when the read finishes, anything else changes
      nothing. */
  method OnImageRead(fa: FieldArray, index: int, result: UploadImage.ReadResult)
    requires fa.Valid()
    requires 0 <= index < |fa.items|
    modifies fa
    ensures fa.Valid()
    ensures fa.keys == old(fa.keys) && fa.nextKey == old(fa.nextKey)
    ensures result.NotText? ==> fa.items == old(fa.items)
    ensures result.Text? ==>
      var line := old(fa.items)[index];
      fa.items == old(fa.items)[index := line.(image := Images(DisplayedImages(line.image) + [result.dataUrl]))]
  {
    if result.Text? {
      var latest := DisplayedImages(fa.items[index].image);
      fa.SetImage(index, UploadImage.OnLoadLatest(latest, result));
    }
  }

  /** A finished read as the line's image editor is wired: `onChange` of a
      read started while the line showed `captured` stores `captured` with
      the result appended, whatever the line holds when the read finishes;
      a non-string result changes nothing. */
  method OnImageReadAsWritten(fa: FieldArray, index: int, captured: seq<string>,
                              result: UploadImage.ReadResult)
    requires fa.Valid()
    requires 0 <= index < |fa.items|
    modifies fa
    ensures fa.Valid()
    ensures fa.keys == old(fa.keys) && fa.nextKey == old(fa.nextKey)
    ensures result.NotText? ==> fa.items == old(fa.items)
    ensures result.Text? ==>
      fa.items == old(fa.items)[index := old(fa.items)[index].(image := Images(captured + [result.dataUrl]))]
  {
    var emitted := UploadImage.OnLoad(captured, result);
    if emitted.Some? {
      fa.SetImage(index, emitted.value);
    }
  }

  /** The ✕ on a thumbnail of the line: the line keeps every image but the
      one at `imageIndex`. */
  method OnImageRemove(fa: FieldArray, index: int, imageIndex: int)
    requires fa.Valid()
    requires 0 <= index < |fa.items|
    modifies fa
    ensures fa.Valid()
    ensures fa.keys == old(fa.keys) && fa.nextKey == old(fa.nextKey)
    ensures var line := old(fa.items)[index];
            fa.items == old(fa.items)[index := line.(image := Images(UploadImage.RemoveImage(DisplayedImages(line.image), imageIndex)))]
  {
    var shown := DisplayedImages(fa.items[index].image);
    fa.SetImage(index, UploadImage.RemoveImage(shown, imageIndex));
  }
}
