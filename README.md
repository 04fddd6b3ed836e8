# Bill splitter: a verified model

This project models the logic of a small bill-splitting web application.
A *group* is one tab at one place. It has a place name, people labelled
P1 … Pn, a list of purchased *items* (each with a quantity-inclusive value
and the people who shared it), a creation instant and a finished flag. The
screens share two storage keys: the list of groups and the id of the
current group.

The model follows the screens' own code, component by component:

- `Domain` (domain.dfy): the item and group records, and the item-value sum
  that the order form, the open-groups list and the history all show.
- `GroupStore` (store.dfy): the two storage keys as a class. It also holds
  the id lookup (`find`) and the "replace the group with this id" update
  (`map`) that every write-back uses.
- `Allocation` (allocation.dfy): the per-person split of the results and
  history screens. `Allocate` is one specification function, a
  left-to-right fold over the items. Two array methods build the result
  the way the source does, with mutable accumulators: `FindPerson` is the
  `totals.find` lookup and `CreditItem` is the inner `forEach`. The lemmas
  cover:
  - ordering and frame facts;
  - the exact share each participant receives;
  - each person's ledger;
  - conservation of money.
- `ResultsSummary` (results_summary.dfy): `calculateTotals` as a loop
  method proved equal to `Allocate` and to the item sum, plus the load and
  new-group effects.
- `GroupsHistory` (groups_history.dfy): the finished filter, and the sort.
  The sort is a stable insertion sort, written both as a function and as an
  in-place array method proved equal to it. The file also has the loop method
  `calculatePersonTotals`, proved to compute the same `Allocate` as the
  results screen, and the expanded-card set.
- `OpenGroupsList` (open_groups_list.dfy): the open filter, and finishing or
  editing a group from the home screen.
- `OrderForm` (order_form.dfy): the order screen as a class whose fields are
  the component's state. It covers adding, removing and finishing items,
  writing back to the store, the participant selection and the order total.
- `Selection` (selection.dfy): toggle and select-all on a participant
  selection, used by the order form and the tip dialog alike.
- `Decimal` (decimal.dfy): the digit filter of the tip inputs, reading digit
  strings as numbers, and writing the numbers of the participant labels.
- `TipDialog` (tip_dialog.dfy): the dialog's state as a class. It covers
  parsing typed digits as hundredths, the percentage and fixed tip values,
  the validity gate, confirm and reset.
- `CreateGroupForm` (create_group_form.dfy): building a new group (labels
  P1 … Pn, no items, open) and appending it to the store.

Money is a `real`. The tip inputs are held as the whole number of
hundredths their digits denote, with `None` for an empty field. Ids and
creation instants are parameters. A creation instant is an integer, so
the history sort compares integers.

Three behaviours of the code a reader might not expect:

- `handleSubmit` itself does not reject an empty place name. The place-name
  input is `required`, so the browser's form validation blocks the submit,
  and the submit button is disabled without a name
  (`CreateGroupForm.Form.CanSubmit`).
- `handleAddItem` itself checks only the name, the price and the selection.
  Quantity and price bounds come from the inputs' `min` attributes, and
  unknown participant labels are not checked at all.
- The per-person split never includes a tip.

## Model

| member | source | states |
|---|---|---|
| Domain.ItemsTotalAppend | components/order-form.tsx:161 | The total of two consecutive runs of items is the sum of their totals. |
| Domain.ItemsTotalOfEmptyAndSingle | components/groups-history.tsx:89-91 | A group without items totals 0, and a single item totals its own value. |
| Domain.ItemsTotalNonNegative | components/open-groups-list.tsx:72-74 | When no item value is negative, the group total is not negative. |
| GroupStore.FindGroup | components/results-summary.tsx:58-59 | The lookup is None exactly when no stored group has the id. Otherwise it is the first group with that id. |
| GroupStore.UpdateWhere | components/order-form.tsx:95-97 | The updated list has the same length and order. Each group with the id is replaced by its update, and every other group is kept exactly. |
| GroupStore.CurrentGroup | components/results-summary.tsx:44-64 | A group is loaded only when both keys are present. It is then the first stored group carrying the current id, and it is always loaded when such a group exists. |
| Allocation.InitialTotals | components/results-summary.tsx:73-77 | One accumulator per person, in people order, each at total 0 with no entries. |
| Allocation.IndexOf | components/results-summary.tsx:91 | The index of the first accumulator for the person, or -1 exactly when there is none. |
| Allocation.FindPerson | components/results-summary.tsx:91 | The array search returns the first accumulator of the person, or -1 when there is none. It agrees with IndexOf. |
| Allocation.CreditItem | components/results-summary.tsx:85-98 | The in-place loop over an item's participants leaves the accumulators equal to ApplyItem of their old contents. |
| Allocation.NewTotals | components/results-summary.tsx:73-77 | A fresh array holding InitialTotals(people). |
| Allocation.AllocateFollowsPeople | components/results-summary.tsx:73-77 | The result has one entry per person, in people order, whatever the items. |
| Allocation.AllocateWithoutItems | components/results-summary.tsx:73-77 | Without items every person has total 0 and no entries. |
| Allocation.ApplyItemsAppend | components/results-summary.tsx:82-100 | Items are applied in order: applying a + b is applying a, then b. |
| Allocation.ItemWithoutParticipantsIsInert | components/results-summary.tsx:85-86 | An item without participants changes no person's total or entries, wherever it occurs. |
| Allocation.CreditAt | components/results-summary.tsx:91-97 | A credit adds the share and one entry to the person's accumulator and leaves every other accumulator unchanged. |
| Allocation.UnknownLabelIsDropped | components/results-summary.tsx:91-92 | Crediting a label that no accumulator carries changes nothing. |
| Allocation.CreditAllAt | components/results-summary.tsx:90-98 | After crediting a list of labels, each person has gained the share once per occurrence of their label, as a total and as repeated entries. |
| Allocation.ApplyItemCredits | components/results-summary.tsx:85-98 | For an item with k > 0 participants, each person gains value / k per listing and one entry {name, value / k} per listing. |
| Allocation.ApplyItemSharesEvenly | components/results-summary.tsx:88-98 | With duplicate-free participants, each listed person gains exactly value / k and one entry. Everyone else is unchanged. |
| Allocation.AllocateTotalsMatchEntries | components/results-summary.tsx:93-97 | Every person's total is the sum of the values of their entries. |
| Allocation.AllocateIsLedger | components/results-summary.tsx:82-100 | With distinct people, each person's entries are the shares of the items that list them, in item order. Their total is the sum of that ledger. |
| Allocation.AllocateSum | components/results-summary.tsx:82-100 | The sum of all totals is the allocated value: each item's share times the number of its listings that name a known person. |
| Allocation.Conservation | components/results-summary.tsx:82-100 | When every item has participants and all of them are known people, the per-person totals add up to the grand total. Duplicate listings are allowed. |
| Allocation.UnassignedItemsShortfall | components/results-summary.tsx:83-86 | An item without participants counts in the grand total but not in the per-person totals. The gap is exactly its value. |
| ResultsSummary.CalculateTotals | components/results-summary.tsx:72-104 | The nested loops over array accumulators compute Allocate(people, items). The running grand total is the sum of all item values. |
| ResultsSummary.LoadResults | components/results-summary.tsx:44-70 | No results exactly when the keys lead to no group (the screen redirects). Otherwise: that group, its Allocate and its item total. |
| ResultsSummary.HandleNewGroup | components/results-summary.tsx:106-109 | The current id is removed and the stored groups are unchanged. |
| GroupsHistory.FinishedGroupsMembers | components/groups-history.tsx:63 | The history holds exactly the stored groups that are finished. |
| GroupsHistory.OpenAndFinishedPartition | components/groups-history.tsx:63 | Together, the open list and the finished list hold every stored group exactly once. |
| GroupsHistory.SortIsNewestFirst | components/groups-history.tsx:65-68 | The sorted history never puts an older group before a newer one. |
| GroupsHistory.SortIsPermutation | components/groups-history.tsx:65-68 | Sorting neither loses nor duplicates a group. |
| GroupsHistory.SortKeepsNewestFirst | components/groups-history.tsx:65-68 | A list already newest first is returned unchanged. |
| GroupsHistory.InsertAtInstant | components/groups-history.tsx:65-68 | Inserting a group into a newest-first list places it after every group of the same instant. |
| GroupsHistory.SortIsStable | components/groups-history.tsx:65-68 | The sort is stable: for every instant, the groups created at that instant keep their stored order. |
| GroupsHistory.InsertInPlace | components/groups-history.tsx:65-68 | One in-place pass shifts the older groups of the sorted prefix right and drops the next group before them. The rest of the array is untouched. |
| GroupsHistory.SortInPlace | components/groups-history.tsx:65-68 | The in-place array sort leaves the array equal to SortNewestFirst of its old contents. |
| GroupsHistory.LoadFinishedGroups | components/groups-history.tsx:55-70 | With nothing stored, the history is empty. Otherwise it holds the finished groups, newest first, as a permutation, with membership exactly "stored and finished". |
| GroupsHistory.CalculatePersonTotals | components/groups-history.tsx:93-119 | The history's own loop computes the same Allocate as the results screen. |
| GroupsHistory.ToggleExpanded | components/groups-history.tsx:77-87 | Membership of the id flips; every other id keeps its membership. |
| GroupsHistory.ToggleExpandedTwice | components/groups-history.tsx:77-87 | Toggling the same card twice restores the set. |
| GroupsHistory.History.constructor | components/groups-history.tsx:48-53 | The first render loads the sorted finished groups with no card expanded. |
| GroupsHistory.History.Toggle | components/groups-history.tsx:77-87 | The expanded set becomes its toggle at the id. |
| GroupsHistory.HandleViewResults | components/groups-history.tsx:72-75 | The current id becomes the group's id and no group changes. |
| OpenGroupsList.LoadOpenGroups | components/open-groups-list.tsx:38-48 | With nothing stored, the open list is empty. Otherwise it holds exactly the stored groups that are not finished. |
| OpenGroupsList.OpenGroupsMembers | components/open-groups-list.tsx:46 | The open list holds exactly the stored groups that are not finished. |
| OpenGroupsList.OpenGroupsAppend | components/open-groups-list.tsx:46 | The filter works piecewise, so the open groups keep their stored order. |
| OpenGroupsList.MarkFinishedFrame | components/open-groups-list.tsx:61-63 | Groups with the id become finished and are otherwise unchanged. Every other group is kept exactly, in order. |
| OpenGroupsList.MarkFinishedIdempotent | components/open-groups-list.tsx:61-63 | Finishing twice is finishing once. |
| OpenGroupsList.MarkFinishedWhenFinished | components/open-groups-list.tsx:61-63 | Finishing an already finished group leaves the list unchanged. |
| OpenGroupsList.MarkFinishedLeavesOpenList | components/open-groups-list.tsx:61-63 | After finishing, the open list holds the groups it held before, except those with the id. |
| OpenGroupsList.HandleEditGroup | components/open-groups-list.tsx:50-54 | Only the current id changes. |
| OpenGroupsList.HandleFinishGroup | components/open-groups-list.tsx:56-70 | With nothing stored, nothing changes. Otherwise the list is stored with the group finished and it becomes current. |
| OrderForm.NewItem | components/order-form.tsx:77-85 | The new item carries the form's name, quantity and selection. Its value is unit price times quantity. |
| OrderForm.RemoveByIdMembers | components/order-form.tsx:110 | Removing keeps exactly the items with a different id. |
| OrderForm.RemoveByIdAppend | components/order-form.tsx:110 | Removing works piecewise, so the remaining items keep their order. |
| OrderForm.RemoveAbsentId | components/order-form.tsx:110 | Removing an id that no item carries leaves the list unchanged. |
| OrderForm.AddRaisesTotal | components/order-form.tsx:161 | Adding an item raises the order total by exactly that item's value. |
| OrderForm.ReplaceItemsThenFind | components/order-form.tsx:95-97 | After a write-back, reloading the group by its id finds the same group, now with the new item list. |
| OrderForm.FinishWithItemsFrame | components/order-form.tsx:134-136 | The current group becomes finished with the form's items and keeps every other field. Every other group is kept exactly. |
| OrderForm.Form.constructor | components/order-form.tsx:46-70 | Loads the current group, when the keys lead to one, and its items. The form starts with an empty name, quantity 1, no price and an empty selection. |
| OrderForm.Form.SetItemName | components/order-form.tsx:180 | The name field takes the typed text. |
| OrderForm.Form.SetUnitPrice | components/order-form.tsx:206 | The price field takes the typed amount, or becomes empty. |
| OrderForm.Form.SetQuantity | components/order-form.tsx:193 | An unreadable quantity or 0 becomes 1; any other integer is kept. |
| OrderForm.Form.HandleAddItem | components/order-form.tsx:72-107 | The add succeeds exactly when there is a name, a price and one or more participants; otherwise nothing changes. On success the item is appended, the current group is written back and the form resets. |
| OrderForm.Form.HandleRemoveItem | components/order-form.tsx:109-124 | The list loses the items with the id and is written back to the current group; the rest of the form is unchanged. |
| OrderForm.Form.HandleFinish | components/order-form.tsx:126-141 | Submitting starts. The current group is stored finished with the form's items, when both it and the stored list exist. |
| OrderForm.Form.HandleParticipantToggle | components/order-form.tsx:143-145 | The selection becomes its toggle at the person. |
| OrderForm.Form.HandleSelectAll | components/order-form.tsx:147-155 | Before a group is loaded nothing happens. Then the selection is cleared when its length equals the people's; otherwise it becomes all people. |
| Selection.Without | components/order-form.tsx:144 | The filtered selection holds every member except the person. |
| Selection.ToggleFlips | components/order-form.tsx:143-145 | A toggle flips the person's membership and keeps everyone else's. |
| Selection.ToggleKeepsSelection | components/order-form.tsx:143-145 | Toggling one of the people keeps the selection duplicate-free and drawn from the people. |
| Selection.ToggleTwice | components/tip-dialog.tsx:77-83 | Toggling twice restores membership. It restores the exact list when the person was absent; a present person moves to the end. |
| Selection.SelectAllClearsExactlyWhenAllSelected | components/tip-dialog.tsx:85-91 | For a valid selection from distinct people, equal lengths means everyone is selected, so select-all clears exactly then and otherwise selects everyone. |
| Decimal.KeepDigits | components/tip-dialog.tsx:54 | The filter's result consists of digits only and is no longer than the input. |
| Decimal.KeepDigitsIdempotent | components/tip-dialog.tsx:54 | Filtering twice is filtering once. |
| Decimal.KeepDigitsSkipsNonDigit | components/tip-dialog.tsx:54 | A non-digit typed anywhere is dropped by the filter. |
| Decimal.Digits | components/create-group-form.tsx:31 | A number is written as a non-empty string of digits. |
| Decimal.DigitsRoundTrip | components/tip-dialog.tsx:60 | Reading back a written number gives the number. |
| Decimal.DigitsInjective | components/create-group-form.tsx:31 | Distinct numbers are written differently. |
| TipDialog.ParseHundredths | components/tip-dialog.tsx:53-62 | The field becomes empty exactly when the input has no digits. |
| TipDialog.ParseEmptyExactlyWithoutDigits | components/tip-dialog.tsx:54-59 | An input clears the field exactly when none of its characters is a digit. |
| TipDialog.ParseRoundTrip | components/tip-dialog.tsx:60-62 | Typing the digits of n gives n hundredths. |
| TipDialog.ParseIgnoresNonDigits | components/tip-dialog.tsx:53-62 | Separators or symbols typed anywhere do not change the parsed amount. |
| TipDialog.PercentageExample | components/tip-dialog.tsx:93-96 | "10,00" is read as 10.00 percent, which is a tip of 10.00 on a total of 100.00. |
| TipDialog.FixedExample | components/tip-dialog.tsx:97-98 | A fixed tip of 20.00 is the typed amount, and over five payers the preview is 4.00 each. |
| TipDialog.TipValueNonNegative | components/tip-dialog.tsx:93-101 | On a non-negative total, the tip is never negative. A positive tip needs a positive value in the active field. |
| TipDialog.PerPersonPreview | components/tip-dialog.tsx:121-122 | The preview is shown exactly when the tip is valid. Times the number of payers, it is the tip. |
| TipDialog.Dialog.constructor | components/tip-dialog.tsx:36-41 | Opens in percentage mode with empty fields and everyone paying. |
| TipDialog.Dialog.HandlePriceChange | components/tip-dialog.tsx:53-63 | The fixed value and its display both become the parsed digits. The mode, the percentage and the payers are unchanged. |
| TipDialog.Dialog.HandlePercentageChange | components/tip-dialog.tsx:65-75 | The percentage and its display both become the parsed digits. The mode, the fixed value and the payers are unchanged. |
| TipDialog.Dialog.SetTipType | components/tip-dialog.tsx:136 | Switching tabs changes only the mode. |
| TipDialog.Dialog.HandleParticipantToggle | components/tip-dialog.tsx:77-83 | The payers become their toggle at the person. |
| TipDialog.Dialog.HandleSelectAll | components/tip-dialog.tsx:85-91 | The payers are cleared when their count equals the people's; otherwise everyone pays. |
| TipDialog.Dialog.HandleReset | components/tip-dialog.tsx:112-119 | Back to the opening state: percentage mode, empty fields, everyone paying. |
| TipDialog.Dialog.HandleConfirm | components/tip-dialog.tsx:103-110 | A valid tip is handed over with its payers and the dialog resets. Otherwise nothing is handed over and nothing changes. |
| CreateGroupForm.Labels | components/create-group-form.tsx:31 | n labels; the i-th is "P" followed by the decimal numeral of i + 1. |
| CreateGroupForm.LabelsDistinct | components/create-group-form.tsx:31 | The generated labels are pairwise distinct. |
| CreateGroupForm.NewGroup | components/create-group-form.tsx:26-35 | The new group has the given id, name and instant. It has the labels as people, as many as its count, no items, and is not finished. |
| CreateGroupForm.CreatedGroupIsCurrent | components/create-group-form.tsx:42-46 | After the append, the current group loads the new group, provided no earlier group carried its id. |
| CreateGroupForm.Form.constructor | components/create-group-form.tsx:17-19 | Empty name, two people, not submitting. |
| CreateGroupForm.Form.SetPlaceName | components/create-group-form.tsx:66 | The name takes the typed text; the people count stays within the slider's range. |
| CreateGroupForm.Form.SetPeopleCount | components/create-group-form.tsx:75-81 | The count takes the slider's value, which lies between 2 and 20. |
| CreateGroupForm.Form.HandleSubmit | components/create-group-form.tsx:21-50 | The new group is appended after the stored groups, an absent list read as empty, and becomes the current group. From a count within the slider's range, it has 2 to 20 people with distinct labels. |

## Left out

- Storage encoding: JSON text in the browser's storage is not modelled. A stored list reads back as written, and the keys are fields of `GroupStore.Store`.
- HTML constraint validation: the `required`, `min` and `step` attributes of the form inputs (components/order-form.tsx:181-207, components/create-group-form.tsx:67) are not modelled. The handlers are modelled as if called directly, so the model also admits an empty place name and a zero or negative quantity or price that the browser would block.
- Navigation: every `router.push` redirect is left out. A load that finds no group yields `None`, and nothing else changes.
- Id and time sources: `Date.now()` ids and ISO-8601 creation dates are parameters. Groups are sorted by an integer instant, so unparseable dates are not modelled.
- Formatting: `formatCurrency`, `toLocaleString` and `toLocaleDateString` are locale library formatting. Each display string is held as the number it shows.
- Floating point: `Number.parseFloat` on free text and IEEE-754 rounding are not modelled, and money is exact. This includes the text round trip of `amount.toString()` in the tip fields and the precision limit of `Number.parseInt` on very long digit strings.
- OrderForm.Form.SetUnitPrice: a non-numeric price text, which is truthy but parses as NaN, is not modelled. The field is either empty or a number.
- OrderForm.Form.SetQuantity: a negative typed quantity is kept as the source keeps it. The bounds of `Number.parseInt` are not modelled.
- CreateGroupForm.Form.SetPeopleCount: the 2..20 range is the slider's, taken as this method's precondition. `HandleSubmit` accepts any count, as the source does.
- Crediting the tip to per-person totals: no component shown consumes the dialog's confirmation, so the model only hands it over.
- Sharing: `navigator.share`, the clipboard and `alert` in the results screen are browser I/O.
- UI-only state: the `isSubmitting` button label, dialog open/close (`onOpenChange`), animations, theme switching, analytics, the logo and the page layouts.
- The pages' own files (`app/*/page.tsx`) only mount the components and are not part of this model.
