/** The state of the main window and its event handlers: converting the
    chosen PDF into page images, saving them as numbered image files, and the
    handlers that decide when to convert again.

    The PDF and imaging libraries, the file system and the user's answers
    are inputs: an `Environment` for what the conversion sees, and the
    arguments of `Save` for the export. Handlers run one at a time. */
module MainWindow {
  import opened Wrappers
  import opened MainWindowLogic

  /** The bitmap encoder a page is rendered or saved with. */
  datatype Encoder = PngEncoder | JpegEncoder

  /** One entry of `viewer.Children`: a Border around the Image decoded from
      page `index` (0-based) rendered at `dpi` through `encoder`. */
  datatype PageImage = PageImage(index: nat, dpi: real, encoder: Encoder)

  /** What PdfDocument.LoadFromFileAsync yields: the page count, and the
      pages whose rendering throws. */
  datatype PdfDocument = PdfDocument(pageCount: nat, failingPages: set<nat>)

  /** What a conversion sees: the paths File.Exists accepts, the documents
      the PDF library opens (a path it cannot open is absent), and what
      double.TryParse makes of a text (None when it fails). */
  datatype Environment = Environment(
    files: set<string>,
    documents: map<string, PdfDocument>,
    parse: string -> Option<Double>)

  /** How PDF変換実行 ended. */
  datatype Conversion =
    | NoFile              // the target path does not exist
    | DpiRejected         // the resolution text failed the check
    | LoadFailed          // the document could not be opened (throws)
    | RenderFailed(page: nat)  // rendering this page threw
    | Converted

  /** The destination the save dialog returned: the folder, and the chosen
      file name without its extension. */
  datatype SaveTarget = SaveTarget(directory: string, baseName: string)

  /** A file the export wrote: `directory/name`, holding `image` encoded
      by `encoder`. */
  datatype WrittenFile = WrittenFile(directory: string, name: string, image: PageImage, encoder: Encoder)

  /** How Button_Click_1 ended. */
  datatype Export =
    | DialogCancelled
    | OverwriteDeclined
    | Exported
    | WriteFailed(name: string)   // creating or encoding this file threw

  /** The entries a conversion of `n` pages produces, in page order. */
  function RenderedPages(n: nat, dpi: real, encoder: Encoder): (pages: seq<PageImage>)
    ensures |pages| == n
    ensures forall i :: 0 <= i < n ==> pages[i].index == i && pages[i].dpi == dpi && pages[i].encoder == encoder
  {
    seq(n, i requires 0 <= i < n => PageImage(i, dpi, encoder))
  }

  lemma RenderedPagesGrow(n: nat, dpi: real, encoder: Encoder)
    ensures RenderedPages(n + 1, dpi, encoder) == RenderedPages(n, dpi, encoder) + [PageImage(n, dpi, encoder)]
  {
    assert RenderedPages(n + 1, dpi, encoder)[..n] == RenderedPages(n, dpi, encoder);
  }

  function Min(a: nat, b: nat): nat
  {
    if a <= b then a else b
  }

  class MainWindow {
    var targetFile: string          // textBoxTargetFile.Text
    var dpiText: string             // comboBoxDPI.Text
    var pngChecked: bool            // RadioButtonPng.IsChecked == true
    var jpegChecked: bool           // RadioButtonJpeg.IsChecked == true
    var pages: seq<PageImage>       // viewer.Children
    var progressValue: nat          // progressBar.Value
    var progressMaximum: nat        // progressBar.Maximum
    var saveEnabled: bool           // button保存.IsEnabled
    var comboBoxOldValue: string    // the last resolution text accepted

    /** The window as InitializeComponent leaves it; the constructor then
        remembers the resolution text as the accepted one. */
    constructor(targetFile: string, dpiText: string, pngChecked: bool, jpegChecked: bool,
                saveEnabled: bool, progressMaximum: nat)
      ensures this.targetFile == targetFile && this.dpiText == dpiText
      ensures this.pngChecked == pngChecked && this.jpegChecked == jpegChecked
      ensures this.saveEnabled == saveEnabled && this.progressMaximum == progressMaximum
      ensures pages == [] && progressValue == 0
      ensures comboBoxOldValue == dpiText
    {
      this.targetFile := targetFile;
      this.dpiText := dpiText;
      this.pngChecked := pngChecked;
      this.jpegChecked := jpegChecked;
      this.pages := [];
      this.progressValue := 0;
      this.progressMaximum := progressMaximum;
      this.saveEnabled := saveEnabled;
      this.comboBoxOldValue := dpiText;
    }

    /** The encoder pages are rendered through: JPEG when that radio button
        is checked, PNG otherwise. */
    function RenderEncoder(): (e: Encoder)
      reads this
      ensures e == JpegEncoder <==> jpegChecked
      ensures e == PngEncoder <==> !jpegChecked
    {
      if jpegChecked then JpegEncoder else PngEncoder
    }

    /** What PDF変換実行 did, between the state before (old) and after:
      - no target file: nothing changed;
      - otherwise the save button is disabled and the page list cleared
        first, so a rejected resolution or an unopenable document leave an
        empty list and a disabled button;
      - a render failure at page k leaves pages 0..k-1, the button disabled;
      - a full run leaves every page in order, progress at its maximum, the
        page count, and re-enables the button. */
    twostate predicate ConversionStep(env: Environment, outcome: Conversion)
      reads this
    {
      var check := CheckDpi(env.parse(dpiText));
      var progressKept := progressValue == old(progressValue) && progressMaximum == old(progressMaximum);
      match outcome
      case NoFile =>
        && targetFile !in env.files
        && pages == old(pages) && progressKept && saveEnabled == old(saveEnabled)
      case DpiRejected =>
        && targetFile in env.files && !check.Accepted?
        && pages == [] && progressKept && !saveEnabled
      case LoadFailed =>
        && targetFile in env.files && check.Accepted? && targetFile !in env.documents
        && pages == [] && progressKept && !saveEnabled
      case RenderFailed(k) =>
        && targetFile in env.files && check.Accepted? && targetFile in env.documents
        && var doc := env.documents[targetFile];
        && k < doc.pageCount && k in doc.failingPages
        && (forall j :: 0 <= j < k ==> j !in doc.failingPages)
        && pages == RenderedPages(k, check.dpi, RenderEncoder())
        && progressValue == k + 1 && progressMaximum == doc.pageCount
        && !saveEnabled
      case Converted =>
        && targetFile in env.files && check.Accepted? && targetFile in env.documents
        && var doc := env.documents[targetFile];
        && (forall j :: 0 <= j < doc.pageCount ==> j !in doc.failingPages)
        && pages == RenderedPages(doc.pageCount, check.dpi, RenderEncoder())
        && progressValue == doc.pageCount && progressMaximum == doc.pageCount
        && saveEnabled
    }

    /** PDF変換実行: renders every page of the target document, in order,
        into the page list, stepping the progress bar before each page. */
    method ConvertPdf(env: Environment) returns (outcome: Conversion)
      modifies this`pages, this`progressValue, this`progressMaximum, this`saveEnabled
      ensures ConversionStep(env, outcome)
    {
      if targetFile !in env.files {
        return NoFile;
      }
      saveEnabled := false;
      pages := [];
      var check := CheckDpi(env.parse(dpiText));
      if !check.Accepted? {
        return DpiRejected;
      }
      if targetFile !in env.documents {
        return LoadFailed;
      }
      var doc := env.documents[targetFile];
      var encoder := RenderEncoder();
      progressMaximum := doc.pageCount;
      progressValue := 0;
      var i := 0;
      while i < doc.pageCount
        invariant i <= doc.pageCount
        invariant pages == RenderedPages(i, check.dpi, encoder)
        invariant progressValue == i && progressMaximum == doc.pageCount && !saveEnabled
        invariant forall j :: 0 <= j < i ==> j !in doc.failingPages
      {
        progressValue := progressValue + 1;
        if i in doc.failingPages {
          return RenderFailed(i);
        }
        RenderedPagesGrow(i, check.dpi, encoder);
        pages := pages + [PageImage(i, check.dpi, encoder)];
        i := i + 1;
      }
      saveEnabled := true;
      return Converted;
    }

    /** The zip loop of Button_Click_1: writes the k-th image to the k-th
        name, in order, for as many pairs as the shorter list has, stepping
        the progress bar before each file; the first file that fails ends
        the loop and the files before it stay written. */
    method WriteImages(images: seq<PageImage>, names: seq<string>, directory: string,
                       encoder: Encoder, failing: set<string>)
      returns (written: seq<WrittenFile>, failedAt: Option<nat>)
      modifies this`progressValue
      ensures var m := Min(|images|, |names|);
              && (failedAt.None? ==> |written| == m && forall k :: 0 <= k < m ==> names[k] !in failing)
              && (failedAt.Some? ==>
                    && failedAt.value < m && names[failedAt.value] in failing
                    && |written| == failedAt.value
                    && forall k :: 0 <= k < failedAt.value ==> names[k] !in failing)
              && (forall k :: 0 <= k < |written| ==>
                    written[k] == WrittenFile(directory, names[k], images[k], encoder))
              && progressValue == old(progressValue) + (if failedAt.None? then m else failedAt.value + 1)
    {
      var m := Min(|images|, |names|);
      written, failedAt := [], None;
      var k := 0;
      while k < m
        invariant k <= m && |written| == k
        invariant forall j :: 0 <= j < k ==> names[j] !in failing
        invariant forall j :: 0 <= j < k ==> written[j] == WrittenFile(directory, names[j], images[j], encoder)
        invariant progressValue == old(progressValue) + k
      {
        progressValue := progressValue + 1;
        if names[k] in failing {
          failedAt := Some(k);
          return;
        }
        written := written + [WrittenFile(directory, names[k], images[k], encoder)];
        k := k + 1;
      }
    }

    /** Button_Click_1: saves the page images as `base (i).png` or
        `base (i).jpg`. It does nothing when the dialog is cancelled, and
        writes nothing when a planned name already exists in the folder and
        the user does not confirm the overwrite. */
    method Save(target: Option<SaveTarget>, directoryFiles: seq<string>, confirm: bool, failing: set<string>)
      returns (outcome: Export, written: seq<WrittenFile>)
      modifies this`progressValue, this`progressMaximum
      ensures outcome == DialogCancelled <==> target.None?
      ensures target.None? ==>
                written == [] && progressValue == old(progressValue) && progressMaximum == old(progressMaximum)
      ensures target.Some? ==>
              var names := ExportPlan(target.value.baseName, Extension(pngChecked), |pages|);
              && (outcome == OverwriteDeclined <==> HasCollision(directoryFiles, names) && !confirm)
              && (outcome.OverwriteDeclined? ==>
                    written == [] && progressValue == old(progressValue) && progressMaximum == old(progressMaximum))
              && (outcome.Exported? ==>
                    && |written| == |pages|
                    && progressValue == |pages| && progressMaximum == |pages|)
              && (outcome.WriteFailed? ==>
                    && |written| < |pages| && outcome.name == names[|written|] && outcome.name in failing
                    && progressValue == |written| + 1 && progressMaximum == |pages|)
              && (outcome.Exported? || outcome.WriteFailed? ==>
                    forall k :: 0 <= k < |written| ==>
                      written[k] == WrittenFile(target.value.directory, names[k], pages[k],
                                                if pngChecked then PngEncoder else JpegEncoder)
                      && names[k] !in failing)
    {
      if target.None? {
        return DialogCancelled, [];
      }
      var extension := Extension(pngChecked);
      var names := ExportPlan(target.value.baseName, extension, |pages|);
      if HasCollision(directoryFiles, names) && !confirm {
        return OverwriteDeclined, [];
      }
      progressMaximum := |names|;
      progressValue := 0;
      var encoder := if pngChecked then PngEncoder else JpegEncoder;
      var failedAt;
      written, failedAt := WriteImages(pages, names, target.value.directory, encoder, failing);
      if failedAt.None? {
        progressMaximum := progressValue;
        outcome := Exported;
      } else {
        outcome := WriteFailed(names[failedAt.value]);
      }
    }

    /** The state a handler leaves when it does not convert. */
    twostate predicate ConversionStateKept()
      reads this
    {
      pages == old(pages) && progressValue == old(progressValue)
      && progressMaximum == old(progressMaximum) && saveEnabled == old(saveEnabled)
    }

    /** ドロップ: takes the first path that names a PDF as the target and
        converts it; does nothing when no path does. */
    method Drop(files: seq<string>, env: Environment) returns (ran: Option<Conversion>)
      modifies this`targetFile, this`pages, this`progressValue, this`progressMaximum, this`saveEnabled
      ensures ran.Some? <==> FirstPdf(files).Some?
      ensures ran.None? ==> targetFile == old(targetFile) && ConversionStateKept()
      ensures ran.Some? ==> targetFile == FirstPdf(files).value && ConversionStep(env, ran.value)
    {
      var file := FirstPdf(files);
      if file.None? {
        return None;
      }
      targetFile := file.value;
      var outcome := ConvertPdf(env);
      return Some(outcome);
    }

    /** Window_ContentRendered: with more than the program path on the
        command line, the arguments are handled as a drop. */
    method ContentRendered(args: seq<string>, env: Environment) returns (ran: Option<Conversion>)
      modifies this`targetFile, this`pages, this`progressValue, this`progressMaximum, this`saveEnabled
      ensures |args| <= 1 ==> ran.None? && targetFile == old(targetFile) && ConversionStateKept()
      ensures |args| > 1 ==> (ran.Some? <==> FirstPdf(args).Some?)
      ensures ran.None? ==> targetFile == old(targetFile) && ConversionStateKept()
      ensures ran.Some? ==> targetFile == FirstPdf(args).value && ConversionStep(env, ran.value)
    {
      if |args| <= 1 {
        return None;
      }
      ran := Drop(args, env);
    }

    /** Button_Click: converts the file chosen in the open dialog (None when
        the dialog is cancelled). */
    method OpenClick(chosen: Option<string>, env: Environment) returns (ran: Option<Conversion>)
      modifies this`targetFile, this`pages, this`progressValue, this`progressMaximum, this`saveEnabled
      ensures ran.Some? <==> chosen.Some?
      ensures ran.None? ==> targetFile == old(targetFile) && ConversionStateKept()
      ensures ran.Some? ==> targetFile == chosen.value && ConversionStep(env, ran.value)
    {
      if chosen.None? {
        return None;
      }
      targetFile := chosen.value;
      var outcome := ConvertPdf(env);
      return Some(outcome);
    }

    /** RadioButton_Checked: the format radio buttons changed; convert again. */
    method FormatChecked(png: bool, env: Environment) returns (outcome: Conversion)
      modifies this`pngChecked, this`jpegChecked, this`pages, this`progressValue, this`progressMaximum,
               this`saveEnabled
      ensures pngChecked == png && jpegChecked == !png
      ensures ConversionStep(env, outcome)
    {
      pngChecked, jpegChecked := png, !png;
      outcome := ConvertPdf(env);
    }

    /** ComboBoxDPI_SelectionChanged: the first added item is the new
        resolution text; a selection with no added items is ignored. The
        combo box takes the selected item as its text whether or not the
        guard passes, and the conversion reads that text after its first
        await, so it renders at the selected resolution. */
    method DpiSelectionChanged(addedItems: seq<string>, env: Environment) returns (ran: Option<Conversion>)
      modifies this`dpiText, this`comboBoxOldValue, this`pages, this`progressValue, this`progressMaximum,
               this`saveEnabled
      ensures dpiText == if |addedItems| >= 1 then addedItems[0] else old(dpiText)
      ensures var accepted := |addedItems| >= 1 && DpiChangeAccepted(old(comboBoxOldValue), addedItems[0], env.parse);
              && (ran.Some? <==> accepted)
              && comboBoxOldValue == (if accepted then addedItems[0] else old(comboBoxOldValue))
      ensures ran.None? ==> ConversionStateKept()
      ensures ran.Some? ==> ConversionStep(env, ran.value)
    {
      if |addedItems| < 1 {
        return None;
      }
      var newValue := addedItems[0];
      dpiText := newValue;
      if comboBoxOldValue == newValue {
        return None;
      }
      if !CheckDpi(env.parse(newValue)).Accepted? {
        return None;
      }
      comboBoxOldValue := newValue;
      var outcome := ConvertPdf(env);
      return Some(outcome);
    }

    /** ComboBoxDPI_LostFocus: the typed text is the new resolution text. */
    method DpiLostFocus(env: Environment) returns (ran: Option<Conversion>)
      modifies this`comboBoxOldValue, this`pages, this`progressValue, this`progressMaximum, this`saveEnabled
      ensures var accepted := DpiChangeAccepted(old(comboBoxOldValue), dpiText, env.parse);
              && (ran.Some? <==> accepted)
              && comboBoxOldValue == (if accepted then dpiText else old(comboBoxOldValue))
      ensures ran.None? ==> ConversionStateKept()
      ensures ran.Some? ==> ConversionStep(env, ran.value)
    {
      if comboBoxOldValue == dpiText {
        return None;
      }
      if !CheckDpi(env.parse(dpiText)).Accepted? {
        return None;
      }
      comboBoxOldValue := dpiText;
      var outcome := ConvertPdf(env);
      return Some(outcome);
    }
  }
}
