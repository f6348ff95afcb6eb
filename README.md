# PDFtoImage — a verified model of the tree helpers and the conversion window

PDFtoImage is a small WPF tool that renders every page of a PDF file to an
image at a chosen resolution, shows the pages in a list, and saves them as
numbered PNG or JPEG files. This project models two parts of it in Dafny and
proves what they promise:

- **The visual-tree helpers** (`VisualTreeHelpers.cs`). The tree is a
  `Node(kind, name, children)` value. "is T" becomes a predicate `isT` on
  kinds, and a C# predicate becomes a `Node -> bool`; a null predicate is
  `None`. The downward searches take the node itself. The upward and
  sibling searches need the parent link, so they take the root and a
  `Path` of child indices to the current node. Every downward search is
  tied to one reference definition: the pre-order list `Descendants`
  filtered by `Matching`. `FindVisualParent`, `FindVisualParentWhere`,
  `FindVisualMostParentOf` and `TopmostParentOf` are tied to
  `IsNearestAncestor` / `NoAncestor`. `FindVisualMostParent` is tied to
  `Parent`, `EnumerableParents` to a closed form of the ancestor chain, and
  the sibling searches to `ChildrenOfKind`.
- **The main window** (`MainWindow.xaml.cs`). Module `MainWindowLogic`
  holds the pure decisions: the resolution check, the export file-name
  plan and collision test, and the choice of the dropped PDF. Module
  `MainWindow` holds a `MainWindow` class. Its fields stand for the
  controls the handlers update: the target path text, the resolution text,
  the two format radio buttons, the page list, the progress bar's value and
  maximum, the save button's enabled flag, and `comboBoxOldValue`. The
  conversion loop and the export loop are `while` loops with invariants.
  The PDF library, the file system and the user's answers are inputs: an
  `Environment` (existing files, openable documents with their page count
  and failing pages, and the number parser), the save dialog's result, the
  directory listing, the overwrite answer, and the set of file names whose
  write fails.

Module `Text` holds the string operations the window uses: decimal
printing of a page number, `ToLower` and `EndsWith`. Module `Wrappers`
holds `Option` (a nullable reference) and `Result` (a value or the
`ArgumentException` a helper throws).

Three facts about the code shape the window model:

- No conversion is cancelled or superseded: the code has no generation
  counter, and no new page list is swapped in atomically. The page list is
  cleared and appended to in place. Handlers are modelled as running one
  after another.
- The conversion first checks that the target file exists. It then disables
  the save button and clears the page list, and only after that checks the
  resolution. So a rejected resolution leaves an empty list and a disabled
  button.
- Progress is two fields of the window, stepped in the loops. There is no
  separate stream of progress events.

## Model

| member | source | states |
|---|---|---|
| VisualTreeHelpers.Matching | Source/PDFtoImage/VisualTreeHelpers.cs:88-92 | the filtered list keeps exactly the elements of kind T that satisfy the predicate, and is no longer than its input |
| VisualTreeHelpers.MatchingForest | Source/PDFtoImage/VisualTreeHelpers.cs:84-104 | the matches in a forest are the head's match, then its subtree's matches, then the rest's, which is the order the searches visit nodes |
| VisualTreeHelpers.NotOwnDescendant | Source/PDFtoImage/VisualTreeHelpers.cs:19-33 | a node is never among its own descendants, so no downward search returns `current` |
| VisualTreeHelpers.FirstMatch | Source/PDFtoImage/VisualTreeHelpers.cs:22-29 | the child loop with early return finds the first pre-order match |
| VisualTreeHelpers.AllMatches | Source/PDFtoImage/VisualTreeHelpers.cs:84-104 | the yielding child loop produces exactly the pre-order matches, in order |
| VisualTreeHelpers.FindVisualChild | Source/PDFtoImage/VisualTreeHelpers.cs:19-33 | null for null `current`; otherwise the first proper descendant of kind T in pre-order, never `current`; null only when no descendant is a T |
| VisualTreeHelpers.FindVisualChildWhere | Source/PDFtoImage/VisualTreeHelpers.cs:41-65 | ArgumentException iff the predicate is null, tested before `current`; otherwise the first pre-order proper descendant of kind T satisfying the predicate, or null |
| VisualTreeHelpers.FindVisualChildrenWhere | Source/PDFtoImage/VisualTreeHelpers.cs:77-106 | ArgumentException iff the predicate is null; otherwise exactly the proper descendants of kind T satisfying it, in pre-order; empty for null `current` |
| VisualTreeHelpers.FindVisualChildren | Source/PDFtoImage/VisualTreeHelpers.cs:70-72 | equals the predicate overload with `x => true`; a descendant is listed iff it is of kind T |
| VisualTreeHelpers.FirstOfChildren | Source/PDFtoImage/VisualTreeHelpers.cs:77-106 | the first match found with early return is the head of the full list of matches |
| VisualTreeHelpers.FindVisualChildIsFirstOfChildren | Source/PDFtoImage/VisualTreeHelpers.cs:41-106 | with the same predicate, FindVisualChild never throws and returns the first element FindVisualChildren yields |
| VisualTreeHelpers.FindVisualChildName | Source/PDFtoImage/VisualTreeHelpers.cs:115-134 | the first pre-order proper descendant of kind T whose Name equals `name`; null when `current` is null or no T descendant has that name |
| VisualTreeHelpers.ValidPrefix | Source/PDFtoImage/VisualTreeHelpers.cs:146 | every ancestor of a node in the tree is in the tree |
| VisualTreeHelpers.AtChild | Source/PDFtoImage/VisualTreeHelpers.cs:268-272 | the node at `q + [j]` is child `j` of the node at `q` |
| VisualTreeHelpers.LastStepAt | Source/PDFtoImage/VisualTreeHelpers.cs:263 | the last index of a path in the tree is a valid child index of the node at the path's parent |
| VisualTreeHelpers.Parent | Source/PDFtoImage/VisualTreeHelpers.cs:146 | `GetParent`: null exactly at the root; otherwise the path one step shorter, a prefix of the node's path |
| VisualTreeHelpers.FindVisualParent | Source/PDFtoImage/VisualTreeHelpers.cs:143-153 | null for a null or non-visual `current`; otherwise the nearest proper ancestor of kind T, or null when no ancestor is a T |
| VisualTreeHelpers.FindVisualParentWhere | Source/PDFtoImage/VisualTreeHelpers.cs:237-253 | ArgumentException iff the predicate is null; otherwise the nearest proper ancestor of kind T satisfying the predicate, or null when none does |
| VisualTreeHelpers.NearestAncestorAbove | Source/PDFtoImage/VisualTreeHelpers.cs:245-249 | when the nearest T-ancestor fails the predicate, the nearest match above it is the nearest match for `current` |
| VisualTreeHelpers.NoAncestorAbove | Source/PDFtoImage/VisualTreeHelpers.cs:245-249 | when the nearest T-ancestor fails the predicate and nothing above matches, no ancestor matches |
| VisualTreeHelpers.EnumerableParentsOf | Source/PDFtoImage/VisualTreeHelpers.cs:161-170 | for a node at depth d: d + 1 items; item i is the ancestor i + 1 levels up when it is a T and null otherwise; the last item is the root's null parent |
| VisualTreeHelpers.EnumerableParents | Source/PDFtoImage/VisualTreeHelpers.cs:178-187 | for a node at depth d: its d ancestors from nearest to root, then null |
| VisualTreeHelpers.FindVisualMostParent | Source/PDFtoImage/VisualTreeHelpers.cs:216-228 | null iff `current` is null; otherwise a parentless node on `current`'s ancestor line, which is `current` itself when it has no parent |
| VisualTreeHelpers.FindVisualMostParentOf | Source/PDFtoImage/VisualTreeHelpers.cs:195-208 | as written: null at the root; the parent when it is the only T-ancestor; otherwise the nearest T strictly above the parent |
| VisualTreeHelpers.TopmostParentOf | Source/PDFtoImage/VisualTreeHelpers.cs:195-208 | the topmost proper ancestor of kind T, with no T above it, or null when no ancestor is a T |
| VisualTreeHelpers.MostParentOfMissesTopmost | Source/PDFtoImage/VisualTreeHelpers.cs:195-208 | with three T's above a leaf, the as-written helper returns the middle one while the topmost is the root |
| VisualTreeHelpers.ChildPathsOfKind | Source/PDFtoImage/VisualTreeHelpers.cs:270-276 | the sibling iterator yields exactly the children of kind T, in increasing child order |
| VisualTreeHelpers.FindVisualSiblings | Source/PDFtoImage/VisualTreeHelpers.cs:261-280 | null iff `current` is null or has no parent; otherwise all children of the parent of kind T in child order, `current` included when it is a T |
| VisualTreeHelpers.FirstChildOfKindIsLowest | Source/PDFtoImage/VisualTreeHelpers.cs:289 | the first listed sibling is the lowest-indexed child of kind T; an empty list means no child is a T |
| VisualTreeHelpers.FindVisualSibling | Source/PDFtoImage/VisualTreeHelpers.cs:288-290 | null for a null or parentless `current` or when no child of the parent is a T; otherwise the lowest-indexed child of kind T |
| Text.NatToString | Source/PDFtoImage/MainWindow.xaml.cs:152 | the page number prints as a non-empty string of decimal digits without a leading zero |
| Text.DecimalValueOfNatToString | Source/PDFtoImage/MainWindow.xaml.cs:152 | reading the printed digits back gives the number |
| Text.NatToStringInjective | Source/PDFtoImage/MainWindow.xaml.cs:152 | different page numbers print differently |
| Text.EndsWith | Source/PDFtoImage/MainWindow.xaml.cs:225 | true iff the suffix fits and each of its characters equals the corresponding character at the end of the string |
| Text.ToLowerChar | Source/PDFtoImage/MainWindow.xaml.cs:225 | upper-case ASCII letters map to lower case; every other character is kept |
| Text.ToLower | Source/PDFtoImage/MainWindow.xaml.cs:225 | the lower-cased path has the same length and is lower-cased character by character |
| MainWindowLogic.CheckDpi | Source/PDFtoImage/MainWindow.xaml.cs:273-286 | "not a number" iff the text does not parse; accepted iff it parses to a finite value in [10, 2000]; NaN and values outside that range are out of range |
| MainWindowLogic.DpiBoundaries | Source/PDFtoImage/MainWindow.xaml.cs:279 | 10 and 2000 are accepted; 9.999, 2000.001, NaN and both infinities are not |
| MainWindowLogic.DpiChangeAccepted | Source/PDFtoImage/MainWindow.xaml.cs:245-251 | a new resolution text is taken iff it differs from the last accepted one and parses to a finite value in [10, 2000]; re-selecting the same text never converts |
| MainWindowLogic.Extension | Source/PDFtoImage/MainWindow.xaml.cs:136 | ".png" iff PNG is selected, ".jpg" otherwise |
| MainWindowLogic.ExportFileNameParts | Source/PDFtoImage/MainWindow.xaml.cs:152 | `ExportFileName` is the base, " (", the page number's digits, ")" and the extension, and reading the digits back gives the page number |
| MainWindowLogic.ExportPlan | Source/PDFtoImage/MainWindow.xaml.cs:152 | n pages get exactly n names; the k-th (1-based) is `base (k)ext` |
| MainWindowLogic.ExportFileNameInjective | Source/PDFtoImage/MainWindow.xaml.cs:152 | two page numbers with the same file name are equal |
| MainWindowLogic.ExportPlanDistinct | Source/PDFtoImage/MainWindow.xaml.cs:152 | the planned names are pairwise distinct |
| MainWindowLogic.ThreePagePlan | Source/PDFtoImage/MainWindow.xaml.cs:152 | three pages of `doc` as PNG are "doc (1).png", "doc (2).png", "doc (3).png" |
| MainWindowLogic.HasCollision | Source/PDFtoImage/MainWindow.xaml.cs:154 | true iff some file of the directory equals some planned name; never for an empty plan or an empty directory |
| MainWindowLogic.CollisionIsPlannedPage | Source/PDFtoImage/MainWindow.xaml.cs:152-154 | the overwrite question is asked iff some page k in 1..n has its name `base (k)ext` among the directory's files |
| MainWindowLogic.IsPdfPathSuffix | Source/PDFtoImage/MainWindow.xaml.cs:225 | `IsPdfPath` holds iff the path ends in a dot followed by "pdf" in any mix of cases |
| MainWindowLogic.FirstPdf | Source/PDFtoImage/MainWindow.xaml.cs:225 | null iff no path ends in ".pdf" after lower-casing; otherwise the first path that does |
| MainWindowLogic.DragOver | Source/PDFtoImage/MainWindow.xaml.cs:204-214 | as written: throws for data without a file list; otherwise allows the drop iff some path ends in ".pdf" (any case) and marks the event handled |
| MainWindowLogic.DragOverThrowsWithoutFiles | Source/PDFtoImage/MainWindow.xaml.cs:205-207 | dragging data that holds no file list makes the handler throw |
| MainWindowLogic.DragOverChecked | Source/PDFtoImage/MainWindow.xaml.cs:204-214 | corrected: always handled; allows the drop iff there is a file list with a PDF in it; equals the as-written handler on file lists |
| MainWindowLogic.DragOverAgreesWithDrop | Source/PDFtoImage/MainWindow.xaml.cs:204-233 | drag-over allows a drop exactly when the drop handler would pick a PDF |
| MainWindow.RenderedPages | Source/PDFtoImage/MainWindow.xaml.cs:89-114 | n rendered pages are entries 0..n-1 in page order, each at the given resolution and encoder |
| MainWindow.RenderedPagesGrow | Source/PDFtoImage/MainWindow.xaml.cs:107-114 | rendering one more page appends exactly that page's entry |
| MainWindow.MainWindow.constructor | Source/PDFtoImage/MainWindow.xaml.cs:22-27 | the window starts with no pages and remembers the initial resolution text as the accepted one |
| MainWindow.MainWindow.RenderEncoder | Source/PDFtoImage/MainWindow.xaml.cs:97-101 | pages are rendered as JPEG iff the JPEG radio button is checked, PNG otherwise |
| MainWindow.MainWindow.ConvertPdf | Source/PDFtoImage/MainWindow.xaml.cs:67-129 | no target file: nothing changes; otherwise the button is disabled and the list cleared before the resolution check; a rejected resolution or unopenable document leave them so; a render failure at page k leaves pages 0..k-1 and progress k + 1; success leaves every page in order, progress at its maximum (the page count) and the button enabled |
| MainWindow.MainWindow.WriteImages | Source/PDFtoImage/MainWindow.xaml.cs:166-185 | writes image k to name k in order, min(#images, #names) files; progress rises by one per attempted file; the first failing write stops the loop and earlier files stay written |
| MainWindow.MainWindow.Save | Source/PDFtoImage/MainWindow.xaml.cs:134-196 | a cancelled dialog, or a collision with an existing file the user does not confirm, writes nothing and leaves progress as it was; otherwise every page is written to its planned name with the selected encoder and progress ends with maximum equal to value, or the first failed name is reported with the earlier files written |
| MainWindow.MainWindow.Drop | Source/PDFtoImage/MainWindow.xaml.cs:224-233 | the first PDF path becomes the target and is converted; with no PDF path nothing changes |
| MainWindow.MainWindow.ContentRendered | Source/PDFtoImage/MainWindow.xaml.cs:35-41 | a command line of at most one argument triggers nothing; a longer one is handled as a drop |
| MainWindow.MainWindow.OpenClick | Source/PDFtoImage/MainWindow.xaml.cs:58-64 | a cancelled dialog changes nothing; a chosen file becomes the target and is converted |
| MainWindow.MainWindow.FormatChecked | Source/PDFtoImage/MainWindow.xaml.cs:198-200 | selecting a format converts again with the new encoder |
| MainWindow.MainWindow.DpiSelectionChanged | Source/PDFtoImage/MainWindow.xaml.cs:238-256 | with an added item, that item becomes the combo box's text; the handler converts at that resolution and updates `comboBoxOldValue` iff the item differs from it and passes the resolution check; otherwise nothing else changes |
| MainWindow.MainWindow.DpiLostFocus | Source/PDFtoImage/MainWindow.xaml.cs:258-271 | converts and updates `comboBoxOldValue` iff the typed text differs from it and passes the resolution check; otherwise nothing changes |

## Left out

- Hit testing (`HitTestFirstOrDefault`, `HitTestAll` and `HitTestHelper`) is not modelled. It depends on WPF's hit-test engine and floating-point geometry.
- The downward searches return node values, not positions. Two structurally equal subtrees cannot be told apart, while the source returns one specific object (such as the TextBox whose LostFocus is hooked). The upward and sibling searches return positions.
- Visual3D nodes are not modelled. Non-visual nodes appear only as `current` of `FindVisualParent` (`Ref.NonVisual`). Every node of the modelled tree is a Visual.
- VisualTreeHelpers.EnumerableParentsOf: the source loops forever when `current` is not a Visual; the model takes only nodes of the tree, so that case does not arise.
- VisualTreeHelpers.FindVisualChildrenWhere: C# throws the ArgumentException only when the enumeration starts, since the method is an iterator. The model returns it at once.
- FindVisualChild's `(Visual)child` cast, which throws for a non-Visual child, does not arise, because every node of the tree is a Visual.
- The PDF and bitmap libraries are not modelled. Opening the file, `LoadFromFileAsync`, `GetPage`, `RenderToStreamAsync`, `BitmapDecoder` and the PNG/JPEG encoders become the `Environment`. It says which documents open, their page count and which pages fail to render. The file-write failures are a set of names given to `Save`.
- MainWindow.MainWindow.ConvertPdf: a load or render exception escapes the source's async handler uncaught. The model ends the conversion with `LoadFailed` / `RenderFailed`, in the state the window had at that point. `StorageFile.GetFileFromPathAsync` is taken not to fail for an existing path.
- The page width formula `Math.Round(ArtBox.Width / 96.0 * dpi)` is not modelled. It is floating-point rounding and a cast. A page entry records the page index, the resolution and the encoder instead of pixels.
- `double.TryParse` and its culture rules are not modelled. The parse is the `parse` function of the `Environment`. The range check is applied to its result, with NaN and the infinities represented.
- Text.EndsWith: the comparison is ordinal. C#'s `EndsWith(string)` compares with the current culture, which ignores zero-weight characters such as a soft hyphen after ".pdf"; such paths are PDFs to the source but not to `IsPdfPath`.
- Text.ToLower: only ASCII letters are lower-cased. `String.ToLower` follows the current culture for every letter.
- Dialogs, message boxes, progress-bar visibility, Border and Image styling, and the open dialog's initial directory lookup are not modelled. The dialogs' answers and the overwrite confirmation are method parameters.
- MainWindow.MainWindow.Save: the images are taken from the page list, not from `FindVisualChildren<Image>(viewer)`. Each page entry is a Border holding one Image, so that search yields the same images in the same order. The save dialog's suggested file name is not modelled. Neither is a partly written file left behind by a failed write.
- MainWindow.MainWindow.DpiSelectionChanged: the combo box's text changes to the selected item when WPF raises the selection event; the model sets it at the start of the handler. The conversion reads the text only after its first await, so it sees the selected item either way.
- MainWindow.MainWindow.Drop: it takes a list of paths. A drop whose data holds no file list passes null, and the source then throws in `FirstOrDefault`; that case is not modelled.
- MainWindow.MainWindow.ContentRendered: registering the combo box's LostFocus handler through `FindVisualChild<TextBox>` is not modelled. Neither is the exception it would raise if no TextBox were found.
- Re-entrancy at each `await` is not modelled, because handlers run one after another here. The progress bar's value is a whole number, as the loops only ever step it by one.

## Findings

| source | as written | input that shows it | evidently intended | confidence | as-written member | corrected member |
|---|---|---|---|---|---|---|
| Source/PDFtoImage/VisualTreeHelpers.cs:195-208 | `FindVisualMostParent<T>` returns the parent only when no T lies above it, and otherwise the nearest T above the parent: the second T-ancestor, not the topmost | a leaf under three nested T's; the result is the middle T | the topmost ancestor of kind T, as the name and the untyped `FindVisualMostParent` suggest | medium, not executed | VisualTreeHelpers.FindVisualMostParentOf, VisualTreeHelpers.MostParentOfMissesTopmost | VisualTreeHelpers.TopmostParentOf |
| Source/PDFtoImage/MainWindow.xaml.cs:205-207 | `GetData(FileDrop) as string[]` is null for a drag that carries no files, and `files.Any(...)` then throws ArgumentNullException | dragging selected text over the window | refuse the drop and mark the event handled | medium, not executed | MainWindowLogic.DragOver, MainWindowLogic.DragOverThrowsWithoutFiles | MainWindowLogic.DragOverChecked |
