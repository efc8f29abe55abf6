/**
 * The two entry points the buttons call, `analyze_text_input` and
 * `analyze_image_input`, with the OCR wrapper `recognize_text`: which input
 * reaches the classifier, and what the user sees afterwards. The classifier
 * (`predict_text`) is a parameter; the OCR engine's answer is an input.
 */
module Analysis {
  import opened Wrappers
  import Text
  import Training
  import Display

  /** The grey hint the text box holds while it is empty and unfocused. */
  const Placeholder := "Paste text here..."

  /** The substring the image path treats as "OCR failed". */
  const FailureMarker := "Could not"

  /** The sentence `recognize_text` returns when the OCR engine reads only whitespace: "Could not read any text." */
  const NothingRead := FailureMarker + " read any text."

  /** The prefix of the sentence `recognize_text` returns when opening or reading the image raises: "Could not process image: ". */
  const ProcessingFailed := FailureMarker + " process image: "

  /** What the OCR engine did with the chosen image: read a string, or raised an error with this message. */
  datatype OcrResult = Recognized(text: string) | Raised(error: string)

  /** What the user ends up with after pressing a button. */
  datatype Outcome =
    | Cancelled                                   // the file dialog was closed without a choice
    | Warning(title: string, message: string)     // messagebox.showwarning
    | Info(title: string, message: string)        // messagebox.showinfo
    | Shown(text: string, result: string, box: seq<Display.Segment>, bars: seq<int>)

  // ---------------------------------------------------------------------------
  // Typed text
  // ---------------------------------------------------------------------------

  /**
   * The gate of `analyze_text_input`: the widget's content is stripped and
   * passed on unless nothing is left or what is left is the placeholder.
   */
  function TypedText(content: string): (r: Option<string>)
    ensures r.Some? <==> Text.Strip(content) != [] && Text.Strip(content) != Placeholder
    ensures r.Some? ==> r.value == Text.Strip(content)
    ensures r.Some? ==> r.value != [] && !Text.IsSpace(r.value[0]) && !Text.IsSpace(r.value[|r.value| - 1])
  {
    var text := Text.Strip(content);
    if text == [] || text == Placeholder then None else Some(text)
  }

  /** A box holding nothing but whitespace is never classified. */
  lemma BlankTextIgnored(content: string)
    requires forall k :: 0 <= k < |content| ==> Text.IsSpace(content[k])
    ensures TypedText(content) == None
  {
  }

  /** The placeholder is rejected whatever whitespace surrounds it, such as the newline the text widget appends. */
  lemma {:induction false} PaddedPlaceholderIgnored(before: string, after: string)
    requires forall k :: 0 <= k < |before| ==> Text.IsSpace(before[k])
    requires forall k :: 0 <= k < |after| ==> Text.IsSpace(after[k])
    ensures TypedText(before + Placeholder + after) == None
  {
    Text.StripPadded(before, Placeholder, after);
  }

  /** Typed text that reaches the classifier is the stripped content, with its inner characters untouched. */
  lemma {:induction false} PaddedTextClassified(before: string, text: string, after: string)
    requires forall k :: 0 <= k < |before| ==> Text.IsSpace(before[k])
    requires forall k :: 0 <= k < |after| ==> Text.IsSpace(after[k])
    requires text != [] && !Text.IsSpace(text[0]) && !Text.IsSpace(text[|text| - 1])
    requires text != Placeholder
    ensures TypedText(before + text + after) == Some(text)
  {
    Text.StripPadded(before, text, after);
  }

  /** `analyze_text_input`, with the classifier `predict` as a parameter. */
  function AnalyzeTextInput(content: string, predict: string -> string): (o: Outcome)
    ensures o.Warning? || o.Shown?
    ensures o.Warning? <==> TypedText(content).None?
    ensures o.Warning? ==> o == Warning("Empty Input", "Please enter some text for analysis.")
    ensures o.Shown? ==> o.text == Text.Strip(content) && o.text != [] && o.text != Placeholder
    ensures o.Shown? ==> o.result == predict(o.text)
    ensures o.Shown? ==> |o.box| == 2 && |o.bars| == 2
    ensures o.Shown? ==> o == Show(o.text, o.result)
    ensures o.Shown? ==> (o.box[1].tag == "spam" <==> o.result == Training.Spam) && (o.bars[0] == 1 <==> o.result == Training.Spam)
    ensures o.Shown? ==> (o.box[1].tag == "safe" <==> o.result != Training.Spam) && (o.bars[1] == 1 <==> o.result != Training.Spam)
  {
    match TypedText(content)
    case None => Warning("Empty Input", "Please enter some text for analysis.")
    case Some(text) => Show(text, predict(text))
  }

  /** `update_result_box` followed by `show_prediction_graph`. */
  function Show(text: string, result: string): (o: Outcome)
    ensures o.Shown? && o.text == text && o.result == result
    ensures |o.box| == 2 && Text.Contains(o.box[0].content, Display.Preview(text))
    ensures o.box == Display.ResultBox(result, text) && o.bars == Display.BarValues(result)
    ensures |o.bars| == 2 && (o.bars[0] == 1 <==> result == Training.Spam)
    ensures o.bars[1] == 1 <==> result != Training.Spam
    ensures o.box[1].tag == "spam" <==> result == Training.Spam
    ensures o.box[1].tag == "safe" <==> result != Training.Spam
  {
    Shown(text, result, Display.ResultBox(result, text), Display.BarValues(result))
  }

  /** The empty box and a box of blanks both give the "Empty Input" warning, whatever the classifier. */
  lemma EmptyInputExamples(predict: string -> string)
    ensures AnalyzeTextInput("", predict) == Warning("Empty Input", "Please enter some text for analysis.")
    ensures AnalyzeTextInput("   \n", predict) == Warning("Empty Input", "Please enter some text for analysis.")
    ensures AnalyzeTextInput(Placeholder + "\n", predict) == Warning("Empty Input", "Please enter some text for analysis.")
  {
    BlankTextIgnored("   \n");
    PaddedPlaceholderIgnored("", "\n");
    assert "" + Placeholder + "\n" == Placeholder + "\n";
  }

  // ---------------------------------------------------------------------------
  // Text read from an image
  // ---------------------------------------------------------------------------

  /**
   * `recognize_text`: the OCR text when it is not blank, otherwise a
   * "Could not ..." sentence; the result is never blank, and every
   * replacement sentence carries the failure marker.
   */
  function RecognizeText(ocr: OcrResult): (r: string)
    ensures Text.Strip(r) != []
    ensures ocr.Recognized? && Text.Strip(ocr.text) != [] ==> r == ocr.text
    ensures ocr.Recognized? && Text.Strip(ocr.text) == [] ==> r == NothingRead
    ensures ocr.Raised? ==> r == ProcessingFailed + ocr.error
    ensures !(ocr.Recognized? && Text.Strip(ocr.text) != []) ==> Text.Contains(r, FailureMarker)
  {
    match ocr
    case Recognized(text) =>
      if Text.Strip(text) != [] then text
      else
        MarkedSentence(NothingRead);
        NothingRead
    case Raised(e) =>
      assert FailureMarker <= ProcessingFailed + e;
      MarkedSentence(ProcessingFailed + e);
      ProcessingFailed + e
  }

  /** A sentence that starts with the failure marker is not blank and contains the marker. */
  lemma MarkedSentence(sentence: string)
    requires FailureMarker <= sentence
    ensures Text.Strip(sentence) != []
    ensures Text.Contains(sentence, FailureMarker)
  {
    assert sentence[0] == 'C';
  }

  /**
   * The gate of `analyze_image_input`: nothing when no file was chosen,
   * nothing when the recognised text mentions "Could not"; otherwise the
   * OCR text as read.
   */
  function ImageText(path: string, ocr: OcrResult): (r: Option<string>)
    ensures r.Some? <==>
      path != "" && ocr.Recognized? && Text.Strip(ocr.text) != [] && !Text.Contains(ocr.text, FailureMarker)
    ensures r.Some? ==> r.value == ocr.text && Text.Strip(r.value) != []
  {
    if path == "" then None
    else
      var text := RecognizeText(ocr);
      if Text.Contains(text, FailureMarker) then None else Some(text)
  }

  /** `analyze_image_input`, with the OCR engine's answer and the classifier as parameters. */
  function AnalyzeImageInput(path: string, ocr: OcrResult, predict: string -> string): (o: Outcome)
    ensures o.Cancelled? <==> path == ""
    ensures o.Shown? <==> ImageText(path, ocr).Some?
    ensures o.Info? ==> o == Info("OCR Result", "No readable text found in the image.")
    ensures o.Cancelled? || o.Info? || o.Shown?
    ensures o.Shown? ==> o.text == ocr.text && o.result == predict(o.text) && Text.Strip(o.text) != []
    ensures o.Shown? ==> |o.box| == 2 && |o.bars| == 2
    ensures o.Shown? ==> o == Show(o.text, o.result)
    ensures o.Shown? ==> (o.box[1].tag == "spam" <==> o.result == Training.Spam) && (o.bars[0] == 1 <==> o.result == Training.Spam)
    ensures o.Shown? ==> (o.box[1].tag == "safe" <==> o.result != Training.Spam) && (o.bars[1] == 1 <==> o.result != Training.Spam)
  {
    if path == "" then Cancelled
    else
      match ImageText(path, ocr)
      case None => Info("OCR Result", "No readable text found in the image.")
      case Some(text) => Show(text, predict(text))
  }

  /** Blank OCR output and OCR errors never reach the classifier: a chosen file then ends in the "OCR Result" notice. */
  lemma {:induction false} UnreadableImageNeverClassified(path: string, ocr: OcrResult, predict: string -> string)
    requires path != ""
    requires ocr.Raised? || Text.Strip(ocr.text) == []
    ensures AnalyzeImageInput(path, ocr, predict) == Info("OCR Result", "No readable text found in the image.")
  {
  }

  /** The marker test is coarse: any readable text that itself says "Could not" is turned away as unreadable. */
  lemma GenuineMarkerTextRejected(path: string, text: string, predict: string -> string)
    requires path != "" && Text.Contains(text, FailureMarker)
    ensures AnalyzeImageInput(path, Recognized(text), predict) == Info("OCR Result", "No readable text found in the image.")
  {
  }

  /**
   * When the classifier only answers with the two class names it was
   * trained on, the bar raised on screen after either button is the one
   * labelled with the result.
   */
  lemma {:induction false} RaisedBarNamesResult(content: string, path: string, ocr: OcrResult, predict: string -> string, k: nat)
    requires forall x :: predict(x) == Training.Spam || predict(x) == Training.NotSpam
    requires k < |Display.Categories|
    ensures var o := AnalyzeTextInput(content, predict);
      o.Shown? ==> (o.bars[k] == 1 <==> Display.Categories[k] == o.result)
    ensures var o := AnalyzeImageInput(path, ocr, predict);
      o.Shown? ==> (o.bars[k] == 1 <==> Display.Categories[k] == o.result)
  {
    var o1 := AnalyzeTextInput(content, predict);
    if o1.Shown? {
      Display.RaisedBarIsResult(o1.result, k);
    }
    var o2 := AnalyzeImageInput(path, ocr, predict);
    if o2.Shown? {
      Display.RaisedBarIsResult(o2.result, k);
    }
  }
}
