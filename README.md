# Order form: line-item editor, image editor and form aggregate

A Dafny model of the order-entry form of OrderManager. A user picks a
company and a received date and edits an ordered list of order lines. Each
line has a product name, a unit, a quantity, a status and attached images.
The model covers three components:

- **The line editor** (`ProductItem`). The three text cells of all lines form
  a grid. The arrow keys move through it. Enter chains product name → unit →
  quantity, and Enter in the quantity cell appends a new line. The ✕ button
  and the Delete key remove a line once the user confirms. After a removal,
  focus goes to a row chosen by a fixed rule.
- **The image editor of a line** (`UploadImage`). Picked or pasted files are
  filtered down to images. Each image is read asynchronously and the result
  appended to the line's list. Images can be removed by index. The gallery
  has scroll buttons and a fullscreen viewer.
- **The form** (`OrderForm`). It holds the validation schema, the initial
  values, the "add item" button and the submit/error dispatch.

The field array of lines (`FieldArrays.FieldArray`) is a class. Its
`items: seq<Item>` is changed only by appending at the end, removing at an
index and setting one line's image list. Every line also carries a key,
which models the field array's `field.id`. A key is handed out once, when
the line is created, and is never reused. Focus changes are not performed.
A handler returns the cell it asks to focus, and `ProductItem.Rendered`
says whether that cell exists, i.e. whether the request lands.

Files: `support.dfy` (option type, JavaScript string and array helpers),
`order_model.dfy` (the values), `field_array.dfy`, `product_item.dfy`,
`upload_image.dfy`, `order_form.dfy`.

Three behaviours of the code worth noting:

- Enter in the quantity cell of a line that is not the last still appends a
  new line at the end. Focus then goes to the next existing line, not to the
  new one. It is not a no-op.
- A finished image read stores the list captured when the files were handed
  in, with the result appended, not the latest list. Both are modelled: the
  as-written handler (`UploadImage.OnLoad`, and on the field array
  `ProductItem.OnImageReadAsWritten`) and the corrected one
  (`UploadImage.OnLoadLatest`, `ProductItem.OnImageRead`). See Findings.
- There is no collapse/summary toggle for a line.

## Model

| member | source | states |
|---|---|---|
| `Support.IndexOf` | components/customComponents/UploadImage.tsx:45 | `indexOf` is -1 exactly when the pattern occurs nowhere from `from` on; otherwise it is the first position where it occurs |
| `Support.Prefix` | components/OrderForm.tsx:57 | `slice(0, n)` is a prefix of the string of length n, or the whole string when it is shorter |
| `Support.DropIndex` | components/customComponents/UploadImage.tsx:55 | `filter((_, i) => i !== index)` keeps n−1 elements in order for an index in range: those before `index` stay in place, those after shift down by one. An index out of range leaves the list equal |
| `Support.DropIndexMultiset` | components/customComponents/UploadImage.tsx:55 | dropping a position loses exactly the element there and nothing else |
| `FieldArrays.DropIndexKeepsDistinct` | components/OrderForm.tsx:112-114 | removing a line never makes two remaining lines share a key |
| `FieldArrays.FieldArray.constructor` | components/OrderForm.tsx:62-65 | the field array starts with the form's initial lines, each with its own key |
| `FieldArrays.FieldArray.Append` | components/OrderForm.tsx:72 | `append` adds exactly one line at the end with a key no line had; the keys stay distinct |
| `FieldArrays.FieldArray.Remove` | components/customComponents/ProductItem.tsx:55 | `remove(index)` drops that line; every other line keeps its value and its key, in order. An index out of range changes nothing |
| `FieldArrays.FieldArray.SetImage` | components/customComponents/ProductItem.tsx:217 | `setValue` on `items.${index}.image` changes that line's image field and nothing else |
| `ProductItem.HandleKeyNavigation` | components/customComponents/ProductItem.tsx:63-93 | only the four arrow keys suppress the default action and ask for a move. ArrowRight and ArrowLeft keep the row and step one place along productName → unit → quantity, stopping at either end. ArrowDown and ArrowUp keep the column and change the row by +1 or −1 |
| `ProductItem.LeftUndoesRight` | components/customComponents/ProductItem.tsx:76-84 | ArrowLeft after ArrowRight returns to the cell it started from, for productName and unit |
| `ProductItem.RightUndoesLeft` | components/customComponents/ProductItem.tsx:76-84 | ArrowRight after ArrowLeft returns to the cell it started from, for unit and quantity |
| `ProductItem.ArrowKeepsFocusInGrid` | components/customComponents/ProductItem.tsx:86-91 | from a rendered cell, an arrow key leaves focus on a rendered cell. Focus stays put exactly when the requested cell does not exist (ArrowUp from row 0, ArrowDown from the last row) or is the current cell |
| `ProductItem.OnCellKeyDown` | components/customComponents/ProductItem.tsx:134-189 | Enter suppresses the default action. From productName and unit it asks for the next column of the same row. From quantity it appends a line and asks for productName of row index+1. Any other key gets the arrow navigation and appends nothing |
| `ProductItem.RemovalFocus` | components/customComponents/ProductItem.tsx:51-53 | the row asked for after a removal is never past the removed one: the same index unless the last row was removed, then the one before; nothing only when removing row 0 of a one-row list (or a negative index) |
| `ProductItem.RemovalFocusLands` | components/customComponents/ProductItem.tsx:51-60 | after removing row `index` with `lastIndex = n−1`, focus is requested iff rows remain, always on a remaining row. After removing the last row it goes to the new last row; otherwise it goes to the same index, now holding the row that slid up |
| `ProductItem.HandleRemove` | components/customComponents/ProductItem.tsx:51-61 | removes the row (keys and values of the others unchanged). It asks for productName of `index−1` when `index == lastIndex` and of `index` otherwise, and asks for nothing when that index is negative |
| `ProductItem.OnRemoveClick` | components/customComponents/ProductItem.tsx:117-121 | the ✕ button removes the line only when the confirmation returns true. Confirming removes it and asks for the focus `RemovalFocus` names. Declining leaves lines and keys unchanged and asks for no focus |
| `ProductItem.OnWindowKeyDown` | components/customComponents/ProductItem.tsx:95-108 | the window listener removes the line only for Delete, with the line's productName focused and the confirmation accepted, and then asks for the focus `RemovalFocus` names. Otherwise nothing changes |
| `ProductItem.OnKeyDown` | components/customComponents/ProductItem.tsx:134-189 | Enter in quantity appends exactly one line ("", "", 1, "Chưa xử lý", []) with a fresh key, the old lines keeping theirs, and nothing else does. The requested row index+1 is rendered after the append, and it is the new line iff the row was the last |
| `ProductItem.OnImageRead` | components/customComponents/UploadImage.tsx:25-29 | a finished read with a string result appends it to the line's current images; a non-string result changes nothing (the corrected handler, see Findings) |
| `ProductItem.OnImageReadAsWritten` | components/customComponents/ProductItem.tsx:215-218 | as written: a finished read with a string result stores the list the line showed when the read started, plus that result, whatever the line holds now; a non-string result changes nothing |
| `ProductItem.OnImageRemove` | components/customComponents/ProductItem.tsx:215-218 | removing a thumbnail stores the line's images without the one at that index |
| `UploadImage.ImageFiles` | components/customComponents/UploadImage.tsx:22-23 | the files read are exactly the input files whose type starts with "image/", no more than the input |
| `UploadImage.ImageFilesSnoc` | components/customComponents/UploadImage.tsx:22-23 | filtering one more file extends the result by that file exactly when it is an image, so the input order is kept |
| `UploadImage.HandleFiles` | components/customComponents/UploadImage.tsx:20-33 | a null file list starts no read. Otherwise one read is started per image file, in input order, and every other file is skipped |
| `UploadImage.PastedFiles` | components/customComponents/UploadImage.tsx:43-49 | paste keeps a clipboard entry's file exactly when its type contains "image" and `getAsFile` is non-null |
| `UploadImage.PastedFilesSnoc` | components/customComponents/UploadImage.tsx:43-49 | the paste loop extends its list by one entry's file exactly when that entry qualifies |
| `UploadImage.HandlePaste` | components/customComponents/UploadImage.tsx:39-52 | the loop collects the qualifying files and hands them to `handleFiles`. With none it hands over null, and nothing is read |
| `UploadImage.OnLoad` | components/customComponents/UploadImage.tsx:25-29 | as written: a string result emits the captured list plus that one result (length +1, prefix unchanged); a non-string result emits nothing |
| `UploadImage.StoredAfterAsWritten` | components/customComponents/UploadImage.tsx:22-30 | as written: the list the line holds after the reads of one `handleFiles` call finish in a given order, each emission replacing the stored list |
| `UploadImage.AsWrittenKeepsOnlyLastRead` | components/customComponents/UploadImage.tsx:22-30 | as written, after all reads of one call finish, the line holds the captured list plus only the last image to finish |
| `UploadImage.AsWrittenLosesAnImage` | components/customComponents/UploadImage.tsx:22-30 | picking two images at once into an empty line leaves one image |
| `UploadImage.OnLoadLatest` | components/customComponents/UploadImage.tsx:25-29 | corrected: a string result is appended to the list the line holds when the read finishes |
| `UploadImage.StoredAfter` | components/customComponents/UploadImage.tsx:22-30 | corrected: the list the line holds after reads finish in a given order, each appending to the current list |
| `UploadImage.StoredAfterKeepsEveryRead` | components/customComponents/UploadImage.tsx:22-30 | corrected: after any sequence of finished reads the line holds its list followed by every string result, in completion order |
| `UploadImage.BothOrdersKeepBoth` | components/customComponents/UploadImage.tsx:22-30 | corrected: two concurrent reads keep both images once each, whichever finishes first |
| `UploadImage.RemoveImage` | components/customComponents/UploadImage.tsx:54-57 | `removeImage(i)` emits, once, the list with position i cut out, order kept, only that element lost; an out-of-range i emits an equal list |
| `UploadImage.ViewOf` | components/customComponents/UploadImage.tsx:90-93 | the gallery shows iff the list is non-empty, with scroll buttons iff it has more than 6 images |
| `UploadImage.RemovalNeverAddsControls` | components/customComponents/UploadImage.tsx:90-93 | removing an image never brings up the gallery or its scroll buttons |
| `UploadImage.Scroll` | components/customComponents/UploadImage.tsx:59-67 | without a container nothing scrolls. Otherwise the offset is −150 for left and +150 for right |
| `UploadImage.BubblePath` | components/customComponents/UploadImage.tsx:146-162 | a click bubbles from its target outwards and ends at the backdrop; the close button and the enlarged image sit inside the panel |
| `UploadImage.OnClick` | components/customComponents/UploadImage.tsx:149-159 | only the panel stops propagation; the backdrop and the close button clear the viewer, the panel and the image leave it |
| `UploadImage.Bubble` | components/customComponents/UploadImage.tsx:146-159 | after bubbling the viewer is unchanged or closed; a path through the backdrop or the close button and not through the panel closes it |
| `UploadImage.ClickInViewer` | components/customComponents/UploadImage.tsx:146-159 | a click inside the panel never reaches the backdrop's handler. The backdrop and the close button reset the viewer to none; other clicks leave it unchanged |
| `UploadImage.ImageEditor.constructor` | components/customComponents/UploadImage.tsx:16-17 | the paste zone starts unfocused and the viewer closed |
| `UploadImage.ImageEditor.OnFocus` | components/customComponents/UploadImage.tsx:81 | focusing the paste zone sets `isFocused` and leaves the viewer alone |
| `UploadImage.ImageEditor.OnBlur` | components/customComponents/UploadImage.tsx:82 | blurring the paste zone clears `isFocused` and leaves the viewer alone |
| `UploadImage.ImageEditor.OnThumbnailClick` | components/customComponents/UploadImage.tsx:128 | clicking a thumbnail opens the viewer on that source |
| `UploadImage.ImageEditor.OnViewerClick` | components/customComponents/UploadImage.tsx:146-159 | on the open viewer, the backdrop and the close button close it, and clicks on the panel or the enlarged image keep it open |
| `OrderForm.NewLinesAgree` | components/OrderForm.tsx:43-49 | the default line's status is the first status option. The "add item" line and the Enter line differ only in `image` (null against []), and both show an empty image list |
| `OrderForm.ItemConforms` | components/OrderForm.tsx:23-29 | the schema of one line: non-empty product name and unit, a number of at least 1 as quantity, any status and any image |
| `OrderForm.Conforms` | components/OrderForm.tsx:18-32 | the schema of the form: non-empty company and received date, at least one line, every line conforming |
| `OrderForm.ItemIssues` | components/OrderForm.tsx:23-29 | a line gets no issue iff its product name and unit are non-empty and its quantity is a number ≥ 1; each issue is addressed to that line |
| `OrderForm.HeaderIssues` | components/OrderForm.tsx:18-31 | the form's own fields get no issue iff companyId, receivedDate and items are all non-empty; none of these issues names a line |
| `OrderForm.ItemsIssues` | components/OrderForm.tsx:21-31 | the lines get no issue iff every line conforms, and every issue names a non-conforming line among them |
| `OrderForm.Issues` | components/OrderForm.tsx:18-32 | the issues of the form: those of its own fields, then those of its lines in line order |
| `OrderForm.ConformsIffNoIssues` | components/OrderForm.tsx:18-32 | the schema reports no issue iff companyId, receivedDate and items are non-empty and every line conforms. Every line issue points at a non-conforming line of the form |
| `OrderForm.RefusedForms` | components/OrderForm.tsx:21-31 | an empty list of lines, or a line with quantity 0, yields an issue at that field's path |
| `OrderForm.ItemIssuesAt` | components/OrderForm.tsx:21-30 | the issues of line i appear among the issues of the list |
| `OrderForm.InitialForm` | components/OrderForm.tsx:55-59 | the form starts with no company, exactly one default line and a received date that is the timestamp's first 10 characters (a prefix of it) |
| `OrderForm.InitialFormRefused` | components/OrderForm.tsx:43-59 | the initial form fails validation with exactly three issues: company, product name and unit of line 0 |
| `OrderForm.ExactlyOneLastRow` | components/OrderForm.tsx:112-116 | with `lastIndex = fields.length - 1` exactly one rendered row, the final one, has `index == lastIndex` |
| `OrderForm.OrderFormState.constructor` | components/OrderForm.tsx:52-65 | the mounted form's value is the initial form |
| `OrderForm.OrderFormState.SelectCompany` | components/OrderForm.tsx:101 | the company selector changes the company and nothing else |
| `OrderForm.OrderFormState.SetReceivedDate` | components/OrderForm.tsx:106 | the date input changes the received date and nothing else |
| `OrderForm.OrderFormState.HandleAddNewItem` | components/OrderForm.tsx:70-80 | appends exactly one default line with a fresh key. It asks to focus productName at the old length, which is the new line and is rendered |
| `OrderForm.OrderFormState.HandleSubmit` | components/OrderForm.tsx:82-93 | the submit handler runs with the form's value iff the schema accepts it. Otherwise the error handler runs with the non-empty issue list. The form state is not modified |

## Left out

- Rendering, styling and the Popover/Command/Select widgets are left out. So are the company selector's search (`CompanySelector.tsx`) and the page wrapper with its static company list: they are presentation or library code.
- Focus is not performed: `document.querySelector`, `focus()` and `requestAnimationFrame` are left out. Handlers return the cell they ask for; the request lands iff that row is rendered. Each of `handleRemove`, the Enter handler of the quantity cell and "add item" schedules its own `requestAnimationFrame` callback; none is cancelled or merged, so when several are pending they all run in the next frame in the order scheduled, and focus ends on the last requested input that exists. This ordering is not modelled.
- `window.confirm` is a boolean parameter.
- The window Delete listener keeps the `index`/`lastIndex` of the render where it was attached (its effect has no dependencies). The model takes (index, lastIndex) as parameters instead.
- FileReader's base64 encoding is left out. A finished read is an event carrying its result; the completion order is the order of the events given.
- Typing into the product-name, unit and quantity cells (`register`) and the status select (`setValue` on `status`) are left out. They overwrite one field of one line and carry no rule.
- The field keys are handed out by a counter. react-hook-form generates string ids; only their uniqueness is modelled.
- `FieldArrays.FieldArray.SetImage`: requires the line to exist. react-hook-form's `setValue` on the path of a removed line would create an entry there; a read that finishes after its line was removed is not modelled. The `onChange` closure also captures the line's `index` (ProductItem.tsx:217): a read that finishes after an earlier line was removed writes into the line that now sits at that index. The model's image-read handlers take the index the write goes to, so they describe that write, but no lemma relates it to the line whose files were read.
- `OrderForm.ConformsIffNoIssues`: the order of the issue list is not claimed to match zod's. Zod's other checks are not modelled (its stripping of unknown keys, its messages other than the ones in the schema and the NaN one).
- Quantity is a real number or NaN, the values `valueAsNumber` yields. Infinity cannot be typed into a number input and is not modelled.
- `UploadImage.Scroll`: gives the offset passed to `scrollBy`. The browser's smooth scrolling and clamping are not modelled.
- The submit and error handlers only log their argument; the logging is left out, and the model returns what they receive.

## Findings

| source | as written | input that shows it | evidently intended | confidence | as-written member | corrected member |
|---|---|---|---|---|---|---|
| components/customComponents/UploadImage.tsx:25-29 | every read of one `handleFiles` call emits `[...value, result]`, where `value` is the list captured when the call started. Each emission replaces the stored list, so only the read that finishes last survives | a line with no images; pick two image files a and b at once; a finishes, then b. The line ends with ["b"] | every image read is appended to the line's current list: ["a", "b"] | high, not executed | `UploadImage.AsWrittenLosesAnImage` | `UploadImage.StoredAfterKeepsEveryRead` |
