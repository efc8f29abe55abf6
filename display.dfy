/**
 * What `update_result_box` and `show_prediction_graph` derive from a
 * prediction: the text preview, the colour tag of the result line and the
 * two bar heights.
 */
module Display {
  import Text
  import Training

  /** Characters of the analysed text shown in the result box before it is cut. */
  const PreviewLimit := 200

  /** The preview: the first 200 characters plus an ellipsis when the text is longer than 200, else the whole text. */
  function Preview(text: string): (r: string)
    ensures |r| <= PreviewLimit + 3
    ensures |text| <= PreviewLimit ==> r == text
    ensures |text| > PreviewLimit ==> |r| == PreviewLimit + 3 && r[PreviewLimit..] == "..."
    ensures var n := if |text| < PreviewLimit then |text| else PreviewLimit; r[..n] == text[..n]
  {
    if |text| > PreviewLimit then text[..PreviewLimit] + "..." else text
  }

  /** Cutting an already cut preview changes nothing. */
  lemma PreviewIdempotent(text: string)
    ensures Preview(Preview(text)) == Preview(text)
  {
    if |text| > PreviewLimit {
      var p := Preview(text);
      assert p[..PreviewLimit] == text[..PreviewLimit];
      assert p[..PreviewLimit] + p[PreviewLimit..] == p;
    }
  }

  /** A text longer than the limit is not always changed by the preview: 200 characters followed by "..." come back unchanged. */
  lemma PreviewFixesLongText(body: string)
    requires |body| == PreviewLimit
    ensures Preview(body + "...") == body + "..."
  {
    assert (body + "...")[..PreviewLimit] == body;
  }

  /** The tag of the result line: "spam" exactly for the result "Spam", "safe" for every other result. */
  function ResultTag(result: string): (r: string)
    ensures r == "spam" || r == "safe"
    ensures r == "spam" <==> result == Training.Spam
  {
    if result == Training.Spam then "spam" else "safe"
  }

  /** The categories on the x axis of the bar chart, in drawing order. */
  const Categories := [Training.Spam, Training.NotSpam]

  /**
   * The bar heights: two non-negative heights that sum to 1, the 1 on the
   * "Spam" bar exactly when the result is "Spam" and on the "Not Spam" bar otherwise.
   */
  function BarValues(result: string): (r: seq<int>)
    ensures |r| == |Categories| == 2
    ensures forall k :: 0 <= k < |r| ==> 0 <= r[k] <= 1
    ensures r[0] + r[1] == 1
    ensures r[0] == 1 <==> result == Training.Spam
  {
    if result == Training.Spam then [1, 0] else [0, 1]
  }

  /** For a result the classifier can produce, the raised bar is the one labelled with that result. */
  lemma {:induction false} RaisedBarIsResult(result: string, k: nat)
    requires result == Training.Spam || result == Training.NotSpam
    requires k < |Categories|
    ensures BarValues(result)[k] == 1 <==> Categories[k] == result
  {
    assert Training.Spam != Training.NotSpam by {
      assert |Training.Spam| != |Training.NotSpam|;
    }
  }

  /** One insert into the result box: its text and its tag. */
  datatype Segment = Segment(content: string, tag: string)

  /** The two inserts of `update_result_box`: the preview under its heading, then the result line. */
  function ResultBox(result: string, text: string): (r: seq<Segment>)
    ensures |r| == 2
    ensures r[0].tag == "normal" && Text.Contains(r[0].content, Preview(text))
    ensures r[0].content == "Extracted Text (partial):\n" + Preview(text) + "\n\n"
    ensures r[1] == Segment("Result: " + result, ResultTag(result))
    ensures r[1].tag == "spam" <==> result == Training.Spam
    ensures r[1].tag == "safe" <==> result != Training.Spam
    ensures Text.Contains(r[1].content, result)
  {
    Text.ContainsInfix("Extracted Text (partial):\n", Preview(text), "\n\n");
    Text.ContainsInfix("Result: ", result, "");
    assert "Result: " + result + "" == "Result: " + result;
    [ Segment("Extracted Text (partial):\n" + Preview(text) + "\n\n", "normal"),
      Segment("Result: " + result, ResultTag(result)) ]
  }
}
