/** The order form: a company, a received date and the field array of order
    lines, the validation schema the form is submitted against, the values
    it starts with, the "add item" button and the submit dispatch. */
module OrderForm {
  import opened Support
  import opened OrderModel
  import opened FieldArrays
  import ProductItem

  /** The labels offered by every line's status select. */
  const StatusOptions: seq<string> := ["Chưa xử lý", "Đã xử lý", "Chờ đặt hàng"]

  /** The line the form starts with and the "add item" button appends. */
  const DefaultItem: Item := Item("", "", Num(1.0), "Chưa xử lý", NoImages)

  /** The default line carries the first status option, and the two ways of
      creating a line differ only in `image` (`null` against `[]`), which the
      image editor shows alike, as an empty list. */
  lemma NewLinesAgree()
    ensures DefaultItem.status == StatusOptions[0]
    ensures ProductItem.EnterAppendItem.status == StatusOptions[0]
    ensures DefaultItem == ProductItem.EnterAppendItem.(image := NoImages)
    ensures DisplayedImages(DefaultItem.image) == DisplayedImages(ProductItem.EnterAppendItem.image) == []
  {
  }

  // The schema's field paths and its messages.

  datatype ItemField = ProductNameField | UnitField | QuantityField

  datatype FieldPath =
    | CompanyIdPath
    | ReceivedDatePath
    | ItemsPath
    | ItemPath(index: nat, field: ItemField)

  datatype Issue = Issue(path: FieldPath, message: string)

  const CompanyIdRequired: string := "Chọn công ty"
  const ReceivedDateRequired: string := "Chọn ngày tiếp nhận"
  const ItemsRequired: string := "Phải có ít nhất một sản phẩm"
  const ProductNameRequired: string := "Tên sản phẩm là bắt buộc"
  const UnitRequired: string := "Đơn vị là bắt buộc"
  const QuantityTooSmall: string := "Tối thiểu là 1"
  /** The schema library's own message for a number field holding NaN. */
  const QuantityNotANumber: string := "Expected number, received nan"

  /** One line satisfies the schema: a non-empty product name and unit and a
      quantity that is a number of at least 1; the status may be any string
      and the image anything. */
  predicate ItemConforms(item: Item)
  {
    |item.productName| >= 1 && |item.unit| >= 1 && item.quantity.Num? && item.quantity.value >= 1.0
  }

  /** The whole form satisfies the schema. */
  predicate Conforms(form: Form)
  {
    && |form.companyId| >= 1
    && |form.receivedDate| >= 1
    && |form.items| >= 1
    && forall i :: 0 <= i < |form.items| ==> ItemConforms(form.items[i])
  }

  function QuantityIssues(index: nat, q: Quantity): seq<Issue>
  {
    match q
    case NaN => [Issue(ItemPath(index, QuantityField), QuantityNotANumber)]
    case Num(v) => if v < 1.0 then [Issue(ItemPath(index, QuantityField), QuantityTooSmall)] else []
  }

  /** The issues the schema reports for the line at `index`. */
  function ItemIssues(index: nat, item: Item): (issues: seq<Issue>)
    ensures issues == [] <==> ItemConforms(item)
    ensures forall k :: 0 <= k < |issues| ==> issues[k].path.ItemPath? && issues[k].path.index == index
  {
    (if |item.productName| >= 1 then [] else [Issue(ItemPath(index, ProductNameField), ProductNameRequired)])
    + (if |item.unit| >= 1 then [] else [Issue(ItemPath(index, UnitField), UnitRequired)])
    + QuantityIssues(index, item.quantity)
  }

  /** The issues of `items`, whose first line sits at position `from` of the
      form's list. Every issue names a non-conforming line among them, and
      there are none exactly when every line conforms. */
  function ItemsIssues(items: seq<Item>, from: nat): (issues: seq<Issue>)
    decreases |items|
    ensures issues == [] <==> forall i :: 0 <= i < |items| ==> ItemConforms(items[i])
    ensures forall k :: 0 <= k < |issues| ==>
      && issues[k].path.ItemPath?
      && from <= issues[k].path.index < from + |items|
      && !ItemConforms(items[issues[k].path.index - from])
  {
    if items == [] then []
    else
      var head := ItemIssues(from, items[0]);
      var rest := ItemsIssues(items[1..], from + 1);
      assert forall i :: 1 <= i < |items| ==> items[i] == items[1..][i - 1];
      head + rest
  }

  /** The issues about the form's own fields. */
  function HeaderIssues(form: Form): (issues: seq<Issue>)
    ensures issues == [] <==> |form.companyId| >= 1 && |form.receivedDate| >= 1 && |form.items| >= 1
    ensures forall k :: 0 <= k < |issues| ==> !issues[k].path.ItemPath?
  {
    (if |form.companyId| >= 1 then [] else [Issue(CompanyIdPath, CompanyIdRequired)])
    + (if |form.receivedDate| >= 1 then [] else [Issue(ReceivedDatePath, ReceivedDateRequired)])
    + (if |form.items| >= 1 then [] else [Issue(ItemsPath, ItemsRequired)])
  }

  /** The issues the schema reports for a form, each addressed by the path
      of the offending field. */
  function Issues(form: Form): seq<Issue>
  {
    HeaderIssues(form) + ItemsIssues(form.items, 0)
  }

  /** The schema accepts a form exactly when it reports no issue; every line
      issue points at a line of the form that does not conform. */
  lemma ConformsIffNoIssues(form: Form)
    ensures Conforms(form) <==> Issues(form) == []
    ensures forall k :: 0 <= k < |Issues(form)| && Issues(form)[k].path.ItemPath? ==>
      Issues(form)[k].path.index < |form.items| && !ItemConforms(form.items[Issues(form)[k].path.index])
  {
    var head: seq<Issue>, tail: seq<Issue> := HeaderIssues(form), ItemsIssues(form.items, 0);
    assert Issues(form) == head + tail;
    assert forall k :: 0 <= k < |head| ==> (head + tail)[k] == head[k];
    forall k | 0 <= k < |head + tail| && (head + tail)[k].path.ItemPath?
      ensures (head + tail)[k].path.index < |form.items|
      ensures !ItemConforms(form.items[(head + tail)[k].path.index])
    {
      if k >= |head| {
        assert (head + tail)[k] == tail[k - |head|];
      }
    }
  }

  /** An empty list of lines, or a line whose quantity is 0, is refused with
      an issue at that path. */
  lemma RefusedForms(form: Form, i: nat)
    ensures form.items == [] ==> Issue(ItemsPath, ItemsRequired) in Issues(form)
    ensures i < |form.items| && form.items[i].quantity == Num(0.0) ==>
      Issue(ItemPath(i, QuantityField), QuantityTooSmall) in Issues(form)
  {
    if i < |form.items| && form.items[i].quantity == Num(0.0) {
      ItemIssuesAt(form.items, 0, i);
      var issue := Issue(ItemPath(i, QuantityField), QuantityTooSmall);
      assert issue in ItemIssues(i, form.items[i]);
    }
  }

  /** The issues of line `i` appear among the issues of the list. */
  lemma {:induction false} ItemIssuesAt(items: seq<Item>, from: nat, i: nat)
    requires i < |items|
    decreases |items|
    ensures forall issue :: issue in ItemIssues(from + i, items[i]) ==> issue in ItemsIssues(items, from)
  {
    if i > 0 {
      ItemIssuesAt(items[1..], from + 1, i - 1);
      assert items[1..][i - 1] == items[i];
    }
  }

  /** The values the form starts with: no company, the first ten characters
      of the current ISO timestamp as the received date, and one default
      line. */
  function InitialForm(isoNow: string): (form: Form)
    ensures form.companyId == ""
    ensures form.receivedDate <= isoNow
    ensures |form.receivedDate| == if |isoNow| < 10 then |isoNow| else 10
    ensures form.items == [DefaultItem]
  {
    Form("", Prefix(isoNow, 10), [DefaultItem])
  }

  /** The initial form is refused: no company, and its one line has neither
      product name nor unit. */
  lemma InitialFormRefused(isoNow: string)
    requires isoNow != ""
    ensures !Conforms(InitialForm(isoNow))
    ensures Issues(InitialForm(isoNow)) == [
      Issue(CompanyIdPath, CompanyIdRequired),
      Issue(ItemPath(0, ProductNameField), ProductNameRequired),
      Issue(ItemPath(0, UnitField), UnitRequired)]
  {
    var form := InitialForm(isoNow);
    assert |form.receivedDate| >= 1;
    assert form.items[1..] == [];
    assert ItemsIssues(form.items, 0) == ItemIssues(0, DefaultItem);
  }

  /** The line's own test `index === lastIndex`. */
  predicate IsLastRow(index: int, lastIndex: int)
  {
    index == lastIndex
  }

  /** For each rendered row, in order, whether it takes itself to be the
      last one when every row is given `lastIndex = fields.length - 1`. */
  function LastRowFlags(rows: nat): seq<bool>
  {
    seq(rows, i => IsLastRow(i, rows - 1))
  }

  /** Exactly one row, the final one, takes itself to be the last (none when
      there are no rows). */
  lemma ExactlyOneLastRow(rows: nat)
    ensures multiset(LastRowFlags(rows))[true] == if rows > 0 then 1 else 0
    ensures rows > 0 ==> LastRowFlags(rows)[rows - 1]
  {
    var flags := LastRowFlags(rows);
    if rows > 0 {
      var others := flags[..rows - 1];
      assert flags == others + [true];
      assert true !in others by {
        forall k | 0 <= k < |others| ensures !others[k] {
          assert others[k] == flags[k];
        }
      }
    } else {
      assert flags == [];
    }
  }

  /** What `handleSubmit(onSubmit, onError)` calls. */
  datatype SubmitOutcome = Submitted(data: Form) | Refused(issues: seq<Issue>)

  class OrderFormState {
    var companyId: string
    var receivedDate: string
    const fields: FieldArray

    ghost predicate Valid()
      reads this, fields
    {
      fields.Valid()
    }

    /** The form's current value. */
    function Value(): Form
      reads this, fields
    {
      Form(companyId, receivedDate, fields.items)
    }

    /** The form mounts with its default values. */
    constructor (isoNow: string)
      ensures Valid() && fresh(fields)
      ensures Value() == InitialForm(isoNow)
    {
      var initial := InitialForm(isoNow);
      companyId := initial.companyId;
      receivedDate := initial.receivedDate;
      fields := new FieldArray(initial.items);
    }

    /** The company selector picks a company. */
    method SelectCompany(id: string)
      requires Valid()
      modifies this
      ensures Valid()
      ensures Value() == old(Value()).(companyId := id)
    {
      companyId := id;
    }

    /** The date input changes the received date. */
    method SetReceivedDate(date: string)
      requires Valid()
      modifies this
      ensures Valid()
      ensures Value() == old(Value()).(receivedDate := date)
    {
      receivedDate := date;
    }

    /** `handleAddNewItem`: append one default line and ask to focus its
      product-name cell, at the length the list had before. */
    method HandleAddNewItem() returns (focus: ProductItem.Cell)
      requires Valid()
      modifies fields
      ensures Valid()
      ensures fields.items == old(fields.items) + [DefaultItem]
      ensures fields.keys == old(fields.keys) + [old(fields.nextKey)]
      ensures focus == ProductItem.Cell(|old(fields.items)|, ProductItem.ProductName)
      ensures ProductItem.Rendered(|fields.items|, focus) && fields.items[focus.row] == DefaultItem
      ensures focus.row == |fields.items| - 1
    {
      var newIndex := |fields.items|;
      fields.Append(DefaultItem);
      focus := ProductItem.Cell(newIndex, ProductItem.ProductName);
    }

    /** Submitting: the submit handler gets the value when the schema
      accepts it, the error handler gets the issues otherwise; the form
      keeps every value either way. */
    method HandleSubmit() returns (outcome: SubmitOutcome)
      requires Valid()
      ensures outcome.Submitted? <==> Conforms(Value())
      ensures outcome.Submitted? ==> outcome.data == Value()
      ensures outcome.Refused? ==> outcome.issues == Issues(Value()) && outcome.issues != []
    {
      var value := Value();
      var issues := Issues(value);
      ConformsIffNoIssues(value);
      if issues == [] {
        outcome := Submitted(value);
      } else {
        outcome := Refused(issues);
      }
    }
  }
}
