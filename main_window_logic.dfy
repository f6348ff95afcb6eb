/** The decisions MainWindow makes without touching its controls: the
    resolution check, the export file names and the overwrite pre-check,
    and which dropped path is taken as the PDF. */
module MainWindowLogic {
  import opened Wrappers
  import opened Text

  // ---------------------------------------------------------------------
  // Resolution check (MainWindow.xaml.cs, IsDPIエラー)
  // ---------------------------------------------------------------------

  /** A System.Double: a finite value, NaN or an infinity. */
  datatype Double = Finite(value: real) | NaN | PositiveInfinity | NegativeInfinity

  /** IEEE `d < c` for a finite bound `c`: false for NaN. */
  predicate LessThan(d: Double, c: real)
  {
    match d
    case Finite(v) => v < c
    case NegativeInfinity => true
    case _ => false
  }

  /** IEEE `c < d` for a finite bound `c`: false for NaN. */
  predicate GreaterThan(d: Double, c: real)
  {
    match d
    case Finite(v) => c < v
    case PositiveInfinity => true
    case _ => false
  }

  const MinDpi: real := 10.0
  const MaxDpi: real := 2000.0

  /** The verdict of the check, and the error message it shows. */
  datatype DpiCheck =
    | NotANumber          // the message asks for a number
    | OutOfRange          // the message asks for a value from 10 to 2000
    | Accepted(dpi: real)

  /** IsDPIエラー applied to what double.TryParse made of the text (None when
      it does not parse). An error iff the text does not parse, or the value
      is NaN, below 10 or above 2000; both bounds are accepted. */
  function CheckDpi(parsed: Option<Double>): (r: DpiCheck)
    ensures r.NotANumber? <==> parsed.None?
    ensures r.Accepted? <==> parsed.Some? && parsed.value.Finite? && MinDpi <= parsed.value.value <= MaxDpi
    ensures r.Accepted? ==> parsed == Some(Finite(r.dpi))
  {
    match parsed
    case None => NotANumber
    case Some(d) =>
      if d.NaN? || LessThan(d, MinDpi) || GreaterThan(d, MaxDpi) then OutOfRange
      else Accepted(d.value)
  }

  /** The bounds themselves pass; values just outside them, NaN and the
      infinities do not. */
  lemma DpiBoundaries()
    ensures CheckDpi(Some(Finite(10.0))) == Accepted(10.0)
    ensures CheckDpi(Some(Finite(2000.0))) == Accepted(2000.0)
    ensures CheckDpi(Some(Finite(9.999))) == OutOfRange
    ensures CheckDpi(Some(Finite(2000.001))) == OutOfRange
    ensures CheckDpi(Some(NaN)) == OutOfRange
    ensures CheckDpi(Some(PositiveInfinity)) == OutOfRange
    ensures CheckDpi(Some(NegativeInfinity)) == OutOfRange
  {
  }

  /** The guard of ComboBoxDPI_SelectionChanged and ComboBoxDPI_LostFocus:
      a new resolution text re-runs the conversion only when it differs from
      the last accepted one and passes the check. */
  function DpiChangeAccepted(oldValue: string, newValue: string, parse: string -> Option<Double>): (r: bool)
    ensures r <==> oldValue != newValue && parse(newValue).Some? && parse(newValue).value.Finite?
                   && MinDpi <= parse(newValue).value.value <= MaxDpi
    ensures oldValue == newValue ==> !r
  {
    oldValue != newValue && CheckDpi(parse(newValue)).Accepted?
  }

  // ---------------------------------------------------------------------
  // Export file names (MainWindow.xaml.cs, Button_Click_1)
  // ---------------------------------------------------------------------

  /** ".png" when the PNG radio button is checked, ".jpg" otherwise. */
  function Extension(pngChecked: bool): (ext: string)
    ensures pngChecked <==> ext == ".png"
    ensures !pngChecked <==> ext == ".jpg"
  {
    if pngChecked then ".png" else ".jpg"
  }

  /** `base (i)ext`. */
  function ExportFileName(base: string, i: nat, ext: string): string
  {
    base + " (" + NatToString(i) + ")" + ext
  }

  /** A file name is the base name, the page number in decimal between
      parentheses, then the extension; the number can be read back. */
  lemma ExportFileNameParts(base: string, i: nat, ext: string)
    ensures var name := ExportFileName(base, i, ext);
            && |name| == |base| + |NatToString(i)| + 3 + |ext|
            && name[..|base|] == base && name[|base|..|base| + 2] == " ("
            && name[|name| - |ext| - 1..] == ")" + ext
            && var digits := name[|base| + 2..|name| - |ext| - 1];
               AllDigits(digits) && DecimalValue(digits) == i
  {
    DecimalValueOfNatToString(i);
    var name := ExportFileName(base, i, ext);
    assert name[|base| + 2..|name| - |ext| - 1] == NatToString(i);
  }

  /** The names for `n` pages, page i (1-based) getting `base (i)ext`. */
  function ExportPlan(base: string, ext: string, n: nat): (names: seq<string>)
    ensures |names| == n
    ensures forall k :: 0 <= k < n ==> names[k] == ExportFileName(base, k + 1, ext)
  {
    seq(n, k requires 0 <= k < n => ExportFileName(base, k + 1, ext))
  }

  /** The page number can be read back from the middle of a name, so two
      pages never share a name. */
  lemma ExportFileNameInjective(base: string, ext: string, i: nat, j: nat)
    requires ExportFileName(base, i, ext) == ExportFileName(base, j, ext)
    ensures i == j
  {
    ExportFileNameParts(base, i, ext);
    ExportFileNameParts(base, j, ext);
    var x := ExportFileName(base, i, ext);
    assert DecimalValue(x[|base| + 2..|x| - |ext| - 1]) == i;
  }

  /** The planned names are pairwise distinct. */
  lemma ExportPlanDistinct(base: string, ext: string, n: nat)
    ensures forall k, l :: 0 <= k < l < n ==> ExportPlan(base, ext, n)[k] != ExportPlan(base, ext, n)[l]
  {
    var names := ExportPlan(base, ext, n);
    forall k, l | 0 <= k < l < n ensures names[k] != names[l] {
      if names[k] == names[l] {
        ExportFileNameInjective(base, ext, k + 1, l + 1);
      }
    }
  }

  lemma ThreePagePlan()
    ensures ExportPlan("doc", ".png", 3) == ["doc (1).png", "doc (2).png", "doc (3).png"]
  {
    assert NatToString(1) == "1" && NatToString(2) == "2" && NatToString(3) == "3";
    var names := ExportPlan("doc", ".png", 3);
    assert names[0] == "doc" + " (" + "1" + ")" + ".png" == "doc (1).png";
    assert names[1] == "doc" + " (" + "2" + ")" + ".png" == "doc (2).png";
    assert names[2] == "doc" + " (" + "3" + ")" + ".png" == "doc (3).png";
  }

  /** Some file of the destination directory has a planned name. */
  function HasCollision(directoryFiles: seq<string>, names: seq<string>): (r: bool)
    ensures r <==> exists i, k :: 0 <= i < |directoryFiles| && 0 <= k < |names| && directoryFiles[i] == names[k]
    ensures names == [] || directoryFiles == [] ==> !r
  {
    var r := exists f :: f in directoryFiles && f in names;
    assert r ==> exists i, k :: 0 <= i < |directoryFiles| && 0 <= k < |names| && directoryFiles[i] == names[k] by {
      if r {
        var f :| f in directoryFiles && f in names;
        var i :| 0 <= i < |directoryFiles| && directoryFiles[i] == f;
        var k :| 0 <= k < |names| && names[k] == f;
      }
    }
    assert !r ==> forall i, k :: 0 <= i < |directoryFiles| && 0 <= k < |names| ==> directoryFiles[i] != names[k] by {
      if !r {
        forall i, k | 0 <= i < |directoryFiles| && 0 <= k < |names| ensures directoryFiles[i] != names[k] {
          assert directoryFiles[i] in directoryFiles && names[k] in names;
        }
      }
    }
    r
  }

  /** The overwrite question is asked exactly when some page's planned name
      already names a file of the directory. */
  lemma CollisionIsPlannedPage(directoryFiles: seq<string>, base: string, ext: string, n: nat)
    ensures HasCollision(directoryFiles, ExportPlan(base, ext, n))
        <==> exists k :: 1 <= k <= n && ExportFileName(base, k, ext) in directoryFiles
  {
    var names := ExportPlan(base, ext, n);
    if HasCollision(directoryFiles, names) {
      var f :| f in directoryFiles && f in names;
      var k :| 0 <= k < n && names[k] == f;
      assert ExportFileName(base, k + 1, ext) in directoryFiles;
    }
    if exists k :: 1 <= k <= n && ExportFileName(base, k, ext) in directoryFiles {
      var k :| 1 <= k <= n && ExportFileName(base, k, ext) in directoryFiles;
      assert names[k - 1] in names;
    }
  }

  // ---------------------------------------------------------------------
  // Choosing the PDF (MainWindow.xaml.cs, ドロップ and AssociatedObject_DragOver)
  // ---------------------------------------------------------------------

  /** `x.ToLower().EndsWith(".pdf")`. */
  predicate IsPdfPath(path: string)
  {
    EndsWith(ToLower(path), ".pdf")
  }

  /** A path names a PDF iff it ends in a dot followed by "pdf" in any mix
      of cases. */
  lemma IsPdfPathSuffix(path: string)
    ensures IsPdfPath(path) <==>
              (&& |path| >= 4 && path[|path| - 4] == '.'
               && (path[|path| - 3] == 'p' || path[|path| - 3] == 'P')
               && (path[|path| - 2] == 'd' || path[|path| - 2] == 'D')
               && (path[|path| - 1] == 'f' || path[|path| - 1] == 'F'))
  {
  }

  /** `files.FirstOrDefault(x => x.ToLower().EndsWith(".pdf"))`: the first
      path that names a PDF, or null when none does. */
  function FirstPdf(files: seq<string>): (r: Option<string>)
    ensures r.None? <==> forall k :: 0 <= k < |files| ==> !IsPdfPath(files[k])
    ensures r.Some? ==> exists i :: 0 <= i < |files| && files[i] == r.value && IsPdfPath(files[i])
                          && forall k :: 0 <= k < i ==> !IsPdfPath(files[k])
  {
    if files == [] then None
    else if IsPdfPath(files[0]) then Some(files[0])
    else
      var r := FirstPdf(files[1..]);
      assert forall k :: 1 <= k < |files| ==> files[k] == files[1..][k - 1];
      r
  }

  datatype DragDropEffects = NoDrop | AllEffects

  /** What AssociatedObject_DragOver leaves in its event arguments, or the
      exception it throws. */
  datatype DragOverResult =
    | DragOverResult(effects: DragDropEffects, handled: bool)
    | ArgumentNullException

  /** AssociatedObject_DragOver as written. `data` is the FileDrop data of
      the drag, None when the dragged data holds no file list (`as string[]`
      then yields null and `files.Any(...)` throws). For a file list it
      allows the drop iff some path names a PDF, and marks the event handled. */
  function DragOver(data: Option<seq<string>>): (r: DragOverResult)
    ensures data.None? <==> r.ArgumentNullException?
    ensures data.Some? ==> r.handled
    ensures data.Some? ==> (r.effects == AllEffects <==> exists k :: 0 <= k < |data.value| && IsPdfPath(data.value[k]))
  {
    match data
    case None => ArgumentNullException
    case Some(files) =>
      var anyPdf := exists k :: 0 <= k < |files| && IsPdfPath(files[k]);
      DragOverResult(if anyPdf then AllEffects else NoDrop, true)
  }

  /** Dragging anything other than files (text, say) makes the handler throw. */
  lemma DragOverThrowsWithoutFiles()
    ensures DragOver(None) == ArgumentNullException
  {
  }

  /** AssociatedObject_DragOver with a null check: data without a file list
      is refused, and the event is always handled. */
  function DragOverChecked(data: Option<seq<string>>): (r: DragOverResult)
    ensures r.DragOverResult? && r.handled
    ensures r.effects == AllEffects <==> data.Some? && FirstPdf(data.value).Some?
    ensures data.Some? ==> r == DragOver(data)
  {
    match data
    case None => DragOverResult(NoDrop, true)
    case Some(_) => DragOver(data)
  }

  /** Drag-over allows a drop exactly when the drop would pick a PDF. */
  lemma DragOverAgreesWithDrop(files: seq<string>)
    ensures DragOver(Some(files)).effects == AllEffects <==> FirstPdf(files).Some?
  {
  }
}
