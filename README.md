# FarminosPDFProcessor: a verified model of the invoice pipeline

FarminosPDFProcessor logs into a FarminOS tenant and pages through its invoice
listing, collecting invoice IDs. It opens each invoice's print view and edits
the rendered document in three ways:

- it drops the "Units" column;
- it strips `(Sac N kg)` suffixes from product names;
- it removes the payment-method block.

It then saves each invoice as `all_modified_invoices/invoice_<id>.pdf`. A failed
invoice is logged and skipped. This project models the logic of that pipeline
(everything in `main.py` that is not browser plumbing) in Dafny and proves what
it does.

Modules, one file each:

- `wrappers.dfy` (`Wrappers`): the `Option` type.
- `chars.dfy` (`Chars`): character classes and ECMAScript `String.prototype.trim`.
  - `IsJsSpace` is the ECMAScript WhiteSpace and LineTerminator set. Both `\s`
    and `trim` use it.
  - `IsAsciiDigit`.
  - `MatchesIgnoringCase` is the non-Unicode `i` flag on the ASCII letters of
    the pattern. That flag never pairs a non-ASCII character with an ASCII
    letter, so an ASCII pattern letter matches only its two ASCII cases.
- `enumeration.dfy` (`Enumeration`): `get_invoice_ids`.
  - A listing view is a `Page`: the hrefs of its invoice anchors plus the state
    of the "next" control (`Absent | Disabled | Enabled`).
  - `ExtractId` is `re.search(r'/invoices/(\d+)$', href)`, written as a suffix
    check. It includes the rule that Python's `$` also matches before one final
    newline.
  - `GetInvoiceIds` is the `while True` loop. It has an inner loop (`AddIds`)
    and the stop rule, and ends with `list(set)` (`ListOf`).
- `item_names.dfy` (`ItemNames`): the JavaScript
  `innerText.replace(/\(sac\s*\d+\s*kg\)/gi, "").trim()`.
  - `MatchLength` is a hand-written matcher for one occurrence.
  - `RemoveSacKg` is the single left-to-right global replace.
  - `CleanName` is the replace followed by the trim.
- `cleanup.dfy` (`Cleanup`): the three in-place DOM edits, as methods of a
  `Document` class.
  - `rows` holds every `tr` of every table (with its section and its `th`/`td`
    cells).
  - `elements` holds the other elements (tag name and class list).
- `orchestrator.dfy` (`Orchestrator`): the rest of `modify_and_save_invoice` and
  `main`.
  - The print URL and the output path of an invoice.
  - `ProcessInvoices`, the per-invoice `try`/`except` loop.
  - `Run`, the enumeration followed by that loop.
  - The work for one invoice is an abstract `Outcome` (`Ok | Err`).

## Model

| member | source | states |
|---|---|---|
| Chars.Trim | main.py:90 | `String.prototype.trim`: the input with its leading and then its trailing JavaScript whitespace dropped. Its meaning is stated by `TrimSpec`. |
| Chars.TrimSpec | main.py:90 | `trim()` returns a contiguous slice of its input. Everything cut before and after it is whitespace, and the slice neither starts nor ends with whitespace. |
| Chars.TrimIdempotent | main.py:90 | Trimming a trimmed string changes nothing. |
| Enumeration.ExtractId | main.py:47-49 | The match and `group(1)`: after one final newline is set aside, the trailing digit run, when it is non-empty and preceded by `/invoices/`. Its meaning is stated by `ExtractIdCorrect`. |
| Enumeration.ExtractIdCorrect | main.py:47-49 | The match yields `id` exactly when the href ends with `/invoices/` followed by `id`, optionally followed by one final newline, and `id` is a non-empty run of digits. Any other href yields nothing. |
| Enumeration.ExtractIdSound | main.py:47-49 | An extracted ID is named by its href: the suffix `/invoices/<id>` is present and the ID is all digits. |
| Enumeration.ExtractIdComplete | main.py:47-49 | Every href ending in `/invoices/<digits>`, with or without one final newline, yields exactly that digit run. This holds whatever precedes it. |
| Enumeration.ExtractsTrailingId | main.py:47-49 | A link that is `/invoices/` followed by a digit run yields that run. |
| Enumeration.IdsOf | main.py:46-49 | The IDs one view adds to the set: the union, over its hrefs in order, of what each href yields. Its meaning is stated by `IdsOfMembers`. |
| Enumeration.IdsOfMembers | main.py:46-49 | An ID is contributed by a view's hrefs exactly when some href in it yields that ID. |
| Enumeration.IdsOfNamedLinks | main.py:46-49 | When every href of a view names an invoice, the view contributes exactly those IDs. Repeats collapse. |
| Enumeration.AddIds | main.py:46-49 | The inner loop adds to the set exactly the IDs of the view's hrefs and nothing else. |
| Enumeration.CollectIds | main.py:39-49 | The set after a sequence of views: the union of what each view adds, starting from the empty set. Its meaning is stated by `CollectIdsViews` and `CollectIdsMembers`. |
| Enumeration.CollectIdsViews | main.py:39-49 | An ID is in the accumulated set exactly when some visited view contributes it. |
| Enumeration.CollectIdsMembers | main.py:39-49 | An ID is in the accumulated set exactly when some href on some visited view yields it. |
| Enumeration.CollectIdsGrows | main.py:39-49 | The set accumulated after `i` views is contained in the set after `j >= i` views. |
| Enumeration.RepeatedIdsAbsorbed | main.py:39-49 | A view leaves the set unchanged exactly when every ID it names was seen before (both directions). |
| Enumeration.CollectedIdsAreDigits | main.py:39-49 | Every collected ID is a non-empty run of ASCII digits, so it contains no `/`. |
| Enumeration.StopIndex | main.py:51-64 | The loop stops at the first view whose next control is absent or disabled. Every earlier view has an enabled control. |
| Enumeration.StopIndexIgnoresLinks | main.py:51-64 | Where the loop stops depends only on the next controls. A view that adds no new ID does not end the listing. |
| Enumeration.ListOf | main.py:67 | `list(invoice_ids)` has no duplicates, the same size as the set and exactly its members. |
| Enumeration.GetInvoiceIds | main.py:33-67 | The method visits exactly the views up to and including the first one whose next control is not enabled. It returns a duplicate-free list whose members are exactly the IDs collected from those views. |
| Enumeration.ThreeLinkView | main.py:46-49 | A view linking invoices a, b, c contributes exactly a, b and c. |
| Enumeration.TwoLinkView | main.py:46-49 | A view linking invoices c and d contributes exactly c and d. |
| Enumeration.TwoPageListing | main.py:41-67 | Two views: links a, b, c with an enabled next control, then c, d with a disabled one. Both views are visited and exactly a, b, c, d are collected. |
| ItemNames.MatchLength | main.py:90 | The length of the occurrence that starts at the front of a string: `(`, `sac`, a whitespace run, a digit run, a whitespace run, `kg` and `)`, read greedily. It is at least 7 and fits the string. Its meaning is stated by `MatchLengthCorrect`. |
| ItemNames.MatchLengthSound | main.py:90 | What the matcher reports at the start of a string is an occurrence of `(sac`, whitespace, digits, whitespace, `kg)` in any ASCII case. |
| ItemNames.MatchLengthComplete | main.py:90 | Every occurrence at the start of a string is reported, with its length. |
| ItemNames.MatchLengthCorrect | main.py:90 | The matcher reports length `n` exactly when the first `n` characters are an occurrence of the pattern. |
| ItemNames.RemoveSacKg | main.py:90 | The global replace with an empty replacement: at each position, delete the occurrence found there and resume after it, or keep the character and move on. The result is never longer than the input. |
| ItemNames.SplitsBeforeParen | main.py:90 | No occurrence reaches across a `(`. The replace over `u + w`, where `w` starts with `(`, is the replace over `u` followed by the replace over `w`. |
| ItemNames.RemovesEveryOccurrence | main.py:90 | Every occurrence is deleted wherever it stands. With an occurrence `t` between `u` and `v`, the result is the replace over `u` followed by the replace over `v`. |
| ItemNames.KeepsParenFreePrefix | main.py:90 | Text without `(` passes through the replace unchanged, and the rest is processed as if alone. |
| ItemNames.DropsLeadingOccurrence | main.py:90 | An occurrence at the front is deleted whole, and the replace resumes after it. |
| ItemNames.NoOccurrenceUnchanged | main.py:90 | A string with no occurrence anywhere is not changed by the replace. |
| ItemNames.OccurrenceThenPlain | main.py:90 | An occurrence followed by text without `(` leaves only that text. |
| ItemNames.SuffixRemoved | main.py:90 | A name without `(` followed by one occurrence loses the occurrence and keeps the name. |
| ItemNames.SinglePass | main.py:90 | The global replace makes one pass. When deleting an occurrence joins a new occurrence, as in `((sac 1 kg)sac 1 kg)`, the new occurrence remains. |
| ItemNames.SinglePassApplies | main.py:90 | `(sac 1 kg)` meets the premise of `SinglePass`. |
| ItemNames.CleanName | main.py:90 | The new text of a product-name cell: the replace, then the trim. |
| ItemNames.SampleMixedCase | main.py:84-90 | `Almonds (Sac 25 kg)` is cleaned to `Almonds`. |
| ItemNames.SampleUpperCase | main.py:90 | `Almonds (SAC 5KG)` is cleaned to `Almonds`: whitespace is optional and matching ignores case. |
| ItemNames.SampleWithoutSuffix | main.py:90 | A trimmed name without the suffix comes back unchanged. |
| ItemNames.PlainNameTrimmed | main.py:90 | The trim runs even when nothing matched. A name without `(` is only trimmed, so one that starts with whitespace always changes. |
| Cleanup.DropUnitsCell | main.py:75-78 | A row with more than one cell loses exactly its second cell, and the others keep their order. A row with zero or one cell is unchanged. |
| Cleanup.DropUnitsCellInverse | main.py:75-78 | Putting the removed cell back in second place restores the row. |
| Cleanup.FirstDataCell | main.py:88 | `querySelector("td")` finds the first data cell. Every cell before it is a header cell, and when there is none all cells are header cells. |
| Cleanup.CleanItemRow | main.py:86-92 | Only the first data cell of a body row changes, to its cleaned name. All other cells, and all rows outside a body, keep their text. Cell count and tags are kept. |
| Cleanup.UnitsAndNamesCommute | main.py:113-114 | When a row starts with a data cell, removing the units cell and cleaning the name give the same row in either order. |
| Cleanup.CleanItemRowUnchangedIff | main.py:86-92 | The name clean-up leaves a row as it was exactly when the row is outside a body, has no data cell, or its first data cell's text is already clean. |
| Cleanup.EditsCommuteIff | main.py:113-114 | Removing the units cell and cleaning the name give the same row in either order, except on one shape of row. That shape is a body row that starts with a header cell and then a data cell (the units cell), and whose first data cell after the units cell has text the clean-up would change. |
| Cleanup.OrderMatters | main.py:113-114 | An example of that shape: a header cell, the units cell, and a name that starts with whitespace. The units-first order cleans the name and the other order leaves it, so the two rows differ. |
| Cleanup.FirstPaymentBlock | main.py:99 | `querySelector("div.gap-1")` finds the first `div` with class `gap-1`, and no earlier element qualifies. When it finds none, no element qualifies. |
| Cleanup.RemovePaymentBlock | main.py:99-102 | The element list without the element at the index `FirstPaymentBlock` finds, or unchanged when it finds none. Its effect is stated by `RemovePaymentBlockEffect`. |
| Cleanup.RemovePaymentBlockEffect | main.py:99-102 | The removal is a no-op exactly when no marked element exists. Otherwise one element goes, and it is marked. The unmarked elements keep their order. |
| Cleanup.RemoveTwiceIsOnceIff | main.py:99-102 | A second removal changes nothing exactly when the document held at most one marked element. |
| Cleanup.Document.CleanUnitsColumn | main.py:70-80 | Every row is replaced by its version without the units cell, independently of the other rows. The other elements are untouched. |
| Cleanup.Document.CleanItemNames | main.py:83-93 | Every row is replaced by its version with the cleaned name, independently of the other rows. The other elements are untouched. |
| Cleanup.Document.RemovePaymentMethod | main.py:96-103 | The element list loses its first marked element, if any. The rows are untouched. |
| Cleanup.Document.Transform | main.py:113-115 | The three edits in pipeline order: each row becomes its name-cleaned version of the units-dropped row, and the first marked element is removed. |
| Orchestrator.PrintUrl | main.py:108 | The print URL is the listing URL, `/`, the ID and `/print`, and the ID can be read back from it. |
| Orchestrator.OutputPath | main.py:117-119 | The output path of an invoice: `all_modified_invoices`, `/`, `invoice_`, the ID and `.pdf`. Its properties are stated by `OutputPathRoundTrip` and `OutputPathInjective`. |
| Orchestrator.OutputPathRoundTrip | main.py:117-119 | The ID can be recovered from `all_modified_invoices/invoice_<id>.pdf`. |
| Orchestrator.OutputPathInjective | main.py:117-119 | Two invoices share an output path only if they are the same invoice. |
| Orchestrator.Written | main.py:140-145 | The paths the loop writes, in loop order: one per listed invoice whose attempt succeeded. Its meaning is stated by `WrittenMembers` and `WrittenExactly`. |
| Orchestrator.Failed | main.py:140-145 | The invoices the loop reports failed, in loop order. Its meaning is stated by `FailedExactly`. |
| Orchestrator.WrittenAndFailedPartition | main.py:140-145 | Every attempted invoice is either written or reported failed, never both. |
| Orchestrator.WrittenMembers | main.py:140-145 | A path is written exactly when it is the path of a listed invoice whose attempt succeeded. |
| Orchestrator.WrittenExactly | main.py:140-145 | An invoice's file is produced exactly when it is listed and its attempt succeeded. |
| Orchestrator.WrittenSubset | main.py:140-145 | Every produced file is the file of a listed invoice. |
| Orchestrator.FailedExactly | main.py:140-145 | An invoice is reported failed exactly when it is listed and its attempt failed. |
| Orchestrator.FailedNoDuplicates | main.py:140-145 | With distinct IDs, each failure is reported once. |
| Orchestrator.OneFailureSkipped | main.py:140-145 | With distinct IDs and exactly one failing invoice, every other invoice's file is produced and only the failing one's is missing. |
| Orchestrator.ProcessInvoices | main.py:136-145 | An empty list attempts nothing. Otherwise every ID is attempted in order, a failure does not stop the loop, and the files produced are exactly those of the succeeding IDs. |
| Orchestrator.Run | main.py:134-145 | The files produced are exactly those of the IDs linked from the visited listing views whose attempt succeeded. The failures reported are exactly the other collected IDs. |

## Order and repetition of the edits

- **Units column and item names.** `clean_item_names` cleans the first `td` of
  each body row, whichever cell that is once the units column is gone.
  - The two edits give the same row in either order on every row except one
    shape (`EditsCommuteIff`). That shape is a body row whose first cell is a
    header cell, whose second cell is a data cell (the units cell), and whose
    first data cell after the units cell has text the clean-up would change.
  - On that shape the units-first order cleans the further data cell. The
    other order cleans the units cell and then removes it (`OrderMatters`).
  - The model fixes the pipeline's order, units first (`Document.Transform`).
- **Payment-method block.** Each call removes the first `div.gap-1`. A second
  call is a no-op exactly when there was at most one such element
  (`RemoveTwiceIsOnceIff`).

## Left out

- The browser is not modelled, because it is foreign I/O. That covers:
  - the Playwright browser, context and page lifecycle;
  - `goto`, `wait_for_selector` and `wait_for_load_state`;
  - the `eval_on_selector_all` call that reads the hrefs (its result is the
    `hrefs` of a `Page`);
  - `page.pdf` rendering (a succeeded `Outcome` stands for a written file);
  - `browser.close`.
- Login and the credential configuration are not modelled, because they are
  network interaction with no logic to verify. The listing URL is kept as a
  constant.
- Logging is not modelled, because it is console output with wall-clock
  timestamps.
- `asyncio.sleep(2)` and the `async`/`await` suspension points are not modelled,
  because they are timing and scheduling, not logic.
- `Path.mkdir` and the file write are not modelled, because they are filesystem
  I/O. The model produces the path only.
- Exceptions raised outside the per-invoice `try` are not modelled; they are
  failures of I/O the model does not contain. In the source they end the run,
  and they can come from login, enumeration or the browser launch.
- Only the rows, cells and elements the edits touch are modelled, not full DOM
  and CSS-selector semantics.
  - The rows of all tables form one sequence, each row with its section.
  - The other elements form a flat list.
  - Nesting is not modelled: removing an element does not remove its
    descendants, and there are no nested tables.
  - Cells hold plain text. Setting `innerText` replaces the cell's content with
    that text, and the rendering nuances of reading `innerText` (such as
    collapsed whitespace and hidden content) are not modelled.
- The selector `div.join button:last-child` is reduced to the three states of
  the next control.
- ExtractIdCorrect: Python's `\d` on `str` also matches non-ASCII decimal digits, but
  the model accepts ASCII digits only. Invoice IDs are ASCII numbers.
- GetInvoiceIds: requires that some listing view has an absent or disabled next
  control. The source loops forever on a listing whose next control stays
  enabled, and the model covers finite listings only.
- ListOf: the order of `list(set)` is CPython's hash order. The model picks an
  arbitrary order and promises only the members and no duplicates.
- Text is a sequence of Unicode scalar values. JavaScript strings are UTF-16
  code units, so lone surrogates are not represented.
- ProcessInvoices: the `except Exception` clause does not catch a
  `BaseException` that is not an `Exception`. Such an exception ends the loop
  and the run: `KeyboardInterrupt`, `SystemExit`, or `asyncio.CancelledError`
  (a `BaseException` since Python 3.8). The model's `Outcome` has no such
  case, so its promise that every ID is attempted assumes none is raised.
- OutputPath: `str(Path(d) / name)` normalises the path, collapsing repeated
  `/` and `.` segments. The model concatenates instead. The two agree for
  every ID without `/`, and every ID the enumeration yields is a digit run
  (`CollectedIdsAreDigits`). `OutputPathRoundTrip` and `OutputPathInjective`
  quantify over all strings, so for an ID containing `/` they describe the
  concatenation, not `pathlib`.
- Outcome: the model does not look at which step of an invoice's processing
  raised, or at the exception's message (which goes only to the log).
