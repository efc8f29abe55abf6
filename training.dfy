/**
 * The rules `train_model` applies to the parsed CSV before handing it to the
 * vectoriser: which columns hold the label and the message, and how a raw
 * label becomes one of the two class names.
 */
module Training {
  import opened Wrappers
  import Text

  /** The two class names the classifier is trained on, and therefore the only ones it predicts. */
  const Spam := "Spam"
  const NotSpam := "Not Spam"

  // ---------------------------------------------------------------------------
  // Column roles
  // ---------------------------------------------------------------------------

  datatype Role = LabelRole | TextRole

  /**
   * The keyword test of each list comprehension: a label header contains
   * "label" or "category" or is "v1"; a text header contains "message" or
   * "text" or is "v2"; all after lower-casing.
   */
  predicate Matches(role: Role, header: string) {
    var h := Text.Lower(header);
    match role
    case LabelRole => Text.Contains(h, "label") || Text.Contains(h, "category") || h == "v1"
    case TextRole => Text.Contains(h, "message") || Text.Contains(h, "text") || h == "v2"
  }

  /** The candidate list of a role: the matching headers, and all of them; its first element is pinned by `CandidatesHeadIsFirstMatch`. */
  function Candidates(headers: seq<string>, role: Role): (r: seq<string>)
    ensures |r| <= |headers|
    ensures forall x :: x in r ==> x in headers && Matches(role, x)
    ensures forall k :: 0 <= k < |headers| && Matches(role, headers[k]) ==> headers[k] in r
  {
    if headers == [] then []
    else if Matches(role, headers[0]) then [headers[0]] + Candidates(headers[1..], role)
    else Candidates(headers[1..], role)
  }

  /**
   * The position of the first header that plays `role`: the reference
   * meaning of "first match", defined without the filtered list.
   */
  function FirstMatch(headers: seq<string>, role: Role): (r: Option<nat>)
    ensures r.Some? ==> r.value < |headers| && Matches(role, headers[r.value])
    ensures r.Some? ==> forall j :: 0 <= j < r.value ==> !Matches(role, headers[j])
    ensures r.None? <==> forall j :: 0 <= j < |headers| ==> !Matches(role, headers[j])
  {
    if headers == [] then None
    else if Matches(role, headers[0]) then Some(0)
    else match FirstMatch(headers[1..], role)
      case None => None
      case Some(i) => Some(i + 1)
  }

  /** Taking `[0]` of the comprehension picks the header at the first matching position. */
  lemma {:induction false} CandidatesHeadIsFirstMatch(headers: seq<string>, role: Role)
    ensures |Candidates(headers, role)| > 0 <==> FirstMatch(headers, role).Some?
    ensures FirstMatch(headers, role).Some? ==>
      Candidates(headers, role)[0] == headers[FirstMatch(headers, role).value]
  {
    if headers != [] && !Matches(role, headers[0]) {
      CandidatesHeadIsFirstMatch(headers[1..], role);
    }
  }

  /** The names of the two columns the corpus is built from. */
  datatype Roles = Roles(labelColumn: string, textColumn: string)

  /** Indexing `df.columns` past its end, as pandas reports it: the index asked for and the number of columns. */
  datatype ColumnError = IndexOutOfBounds(index: nat, size: nat)

  /**
   * Column-role detection. When both keyword searches find a header, each
   * role takes its first match; when either finds none, both fall back to
   * the first two columns, which fails when there are fewer than two.
   */
  function DetectRoles(headers: seq<string>): (r: Result<Roles, ColumnError>)
    ensures var l, t := FirstMatch(headers, LabelRole), FirstMatch(headers, TextRole);
      && (l.Some? && t.Some? ==> r == Success(Roles(headers[l.value], headers[t.value])))
      && (l.None? || t.None? ==>
            r == if |headers| >= 2 then Success(Roles(headers[0], headers[1]))
                 else Failure(IndexOutOfBounds(|headers|, |headers|)))
    ensures r.Failure? <==>
      |headers| < 2 && (FirstMatch(headers, LabelRole).None? || FirstMatch(headers, TextRole).None?)
    ensures r.Success? ==> r.value.labelColumn in headers && r.value.textColumn in headers
  {
    CandidatesHeadIsFirstMatch(headers, LabelRole);
    CandidatesHeadIsFirstMatch(headers, TextRole);
    var labels, texts := Candidates(headers, LabelRole), Candidates(headers, TextRole);
    if |labels| == 0 || |texts| == 0 then
      // Fallback: column 0 for the label, column 1 for the message.
      if |headers| == 0 then Failure(IndexOutOfBounds(0, 0))
      else if |headers| == 1 then Failure(IndexOutOfBounds(1, 1))
      else Success(Roles(headers[0], headers[1]))
    else
      Success(Roles(labels[0], texts[0]))
  }

  /** The joint fallback: one search failing discards the other's match too. */
  lemma {:induction false} FallbackIgnoresOtherMatch(headers: seq<string>)
    requires |headers| >= 2
    requires forall j :: 0 <= j < |headers| ==> !Matches(TextRole, headers[j])
    ensures DetectRoles(headers) == Success(Roles(headers[0], headers[1]))
  {
    assert FirstMatch(headers, TextRole).None?;
  }

  // ---------------------------------------------------------------------------
  // Label normalisation
  // ---------------------------------------------------------------------------

  /**
   * The label rule of the training step: the result is one of the two class
   * names, and it is "Spam" exactly when "spam" occurs in the lower-cased label.
   */
  function NormalizeLabel(raw: string): (r: string)
    ensures r == Spam || r == NotSpam
    ensures r == Spam <==> exists i :: Text.OccursAt(Text.Lower(raw), "spam", i)
  {
    Text.ContainsIffOccurs(Text.Lower(raw), "spam");
    if Text.Contains(Text.Lower(raw), "spam") then Spam else NotSpam
  }

  /** The label normalisation is not idempotent: its own "Not Spam" output maps to "Spam", so applying it twice always gives "Spam". */
  lemma NormalizeTwiceIsSpam(raw: string)
    ensures NormalizeLabel(NotSpam) == Spam
    ensures NormalizeLabel(NormalizeLabel(raw)) == Spam
  {
    Text.LowerIs(NotSpam, "not spam");
    assert "not spam"[4..8] == "spam";
    assert Text.OccursAt("not spam", "spam", 4);
    Text.LowerIs(Spam, "spam");
    assert Text.OccursAt("spam", "spam", 0);
  }

  /** The normalisation is the identity on "Spam" and case-insensitive: "SPAM" is spam, "ham" is not. */
  lemma NormalizeExamples()
    ensures NormalizeLabel("spam") == Spam
    ensures NormalizeLabel("SPAM") == Spam
    ensures NormalizeLabel("ham") == NotSpam
    ensures NormalizeLabel("") == NotSpam
  {
    Text.LowerIs("spam", "spam");
    Text.LowerIs("SPAM", "spam");
    assert Text.OccursAt("spam", "spam", 0);
    Text.LowerIs("ham", "ham");
    Text.MissingCharNotContained("ham", "spam", 0);
  }

  /** The label column after normalisation: every label normalised, position by position. */
  function NormalizeColumn(values: seq<string>): (r: seq<string>)
    ensures |r| == |values|
    ensures forall k :: 0 <= k < |r| ==> r[k] == NormalizeLabel(values[k])
    ensures forall k :: 0 <= k < |r| ==> r[k] == Spam || r[k] == NotSpam
  {
    seq(|values|, k requires 0 <= k < |values| => NormalizeLabel(values[k]))
  }

  // ---------------------------------------------------------------------------
  // The training corpus
  // ---------------------------------------------------------------------------

  /** One training row: the normalised class and the message text. */
  datatype Example = Example(category: string, message: string)

  /** The position `df[[name]]` selects: the first header with that name. */
  function ColumnIndex(headers: seq<string>, name: string): (k: nat)
    requires name in headers
    ensures k < |headers| && headers[k] == name
    ensures forall j :: 0 <= j < k ==> headers[j] != name
  {
    if headers[0] == name then 0 else 1 + ColumnIndex(headers[1..], name)
  }

  /**
   * Lines 28-40 of `train_model` together: detect the roles, keep the two
   * columns, normalise the labels. `rows` are the parsed CSV rows, each cell
   * already converted with `str`.
   */
  function LoadCorpus(headers: seq<string>, rows: seq<seq<string>>): (r: Result<seq<Example>, ColumnError>)
    requires forall row :: row in rows ==> |row| == |headers|
    ensures r.Failure? <==> DetectRoles(headers).Failure?
    ensures r.Failure? ==> r.error == DetectRoles(headers).error
    ensures r.Success? ==> |r.value| == |rows|
    ensures r.Success? ==> forall k :: 0 <= k < |rows| ==>
      && (r.value[k].category == Spam || r.value[k].category == NotSpam)
      && r.value[k].category == NormalizeLabel(rows[k][ColumnIndex(headers, DetectRoles(headers).value.labelColumn)])
      && r.value[k].message == rows[k][ColumnIndex(headers, DetectRoles(headers).value.textColumn)]
  {
    match DetectRoles(headers)
    case Failure(e) => Failure(e)
    case Success(roles) =>
      var li, ti := ColumnIndex(headers, roles.labelColumn), ColumnIndex(headers, roles.textColumn);
      var labels := NormalizeColumn(seq(|rows|, k requires 0 <= k < |rows| => rows[k][li]));
      Success(seq(|rows|, k requires 0 <= k < |rows| => Example(labels[k], rows[k][ti])))
  }

  /** The headers of the canonical dataset put the label in column 0 and the message in column 1. */
  lemma CanonicalHeaders()
    ensures DetectRoles(["v1", "v2", "Unnamed: 2", "Unnamed: 3", "Unnamed: 4"]) == Success(Roles("v1", "v2"))
  {
    var canonical := ["v1", "v2", "Unnamed: 2", "Unnamed: 3", "Unnamed: 4"];
    Text.LowerIs("v1", "v1");
    Text.LowerIs("v2", "v2");
    assert Matches(LabelRole, canonical[0]) && Matches(TextRole, canonical[1]);
    assert !Matches(TextRole, canonical[0]);
  }

  /** Mixed-case "Category"/"Message" headers resolve to the same positions as "v1"/"v2". */
  lemma MixedCaseHeaders()
    ensures DetectRoles(["Category", "Message"]) == Success(Roles("Category", "Message"))
  {
    var mixed := ["Category", "Message"];
    Text.LowerIs("Category", "category");
    Text.LowerIs("Message", "message");
    Text.ContainsInfix("", "category", "");
    Text.ContainsInfix("", "message", "");
    Text.MissingCharNotContained("category", "message", 0);
    Text.MissingCharNotContained("category", "text", 2);
    assert Matches(LabelRole, mixed[0]) && Matches(TextRole, mixed[1]);
    assert !Matches(TextRole, mixed[0]);
  }

  /** The joint fallback in action: "label" sits in column 1, yet with no text header the label role goes to column 0. */
  lemma SwappedHeadersFallBack()
    ensures DetectRoles(["body", "label"]) == Success(Roles("body", "label"))
  {
    Text.LowerIs("body", "body");
    Text.LowerIs("label", "label");
    Text.MissingCharNotContained("body", "message", 0);
    Text.MissingCharNotContained("body", "text", 0);
    Text.MissingCharNotContained("label", "message", 0);
    Text.MissingCharNotContained("label", "text", 0);
    FallbackIgnoresOtherMatch(["body", "label"]);
  }

  /**
   * A lone header that matches both keyword sets takes both roles, so one
   * column is enough. With more columns each role still takes its own first
   * match, so an earlier single-role header wins that role.
   */
  lemma SharedHeader(h: string)
    requires Matches(LabelRole, h) && Matches(TextRole, h)
    ensures DetectRoles([h]) == Success(Roles(h, h))
  {
    assert Matches(LabelRole, [h][0]);
  }

  /** "text label" matches both keyword sets, so on its own it takes both roles. */
  lemma TextLabelMatchesBoth()
    ensures Matches(LabelRole, "text label") && Matches(TextRole, "text label")
    ensures DetectRoles(["text label"]) == Success(Roles("text label", "text label"))
  {
    Text.LowerIs("text label", "text label");
    Text.ContainsInfix("text ", "label", "");
    Text.ContainsInfix("", "text", " label");
    SharedHeader("text label");
  }

  /** A plain "label" header plays the label role only. */
  lemma PlainLabelHeader()
    ensures Matches(LabelRole, "label") && !Matches(TextRole, "label")
  {
    Text.LowerIs("label", "label");
    Text.ContainsInfix("", "label", "");
    assert "" + "label" + "" == "label";
    Text.MissingCharNotContained("label", "message", 0);
    Text.MissingCharNotContained("label", "text", 0);
  }

  /** After a plain "label" header, "text label" takes only the text role: each role takes its own first match. */
  lemma SharedHeaderAfterLabel()
    ensures DetectRoles(["label", "text label"]) == Success(Roles("label", "text label"))
  {
    TextLabelMatchesBoth();
    PlainLabelHeader();
    var hs := ["label", "text label"];
    assert FirstMatch(hs, LabelRole) == Some(0);
    assert FirstMatch(hs, TextRole) == Some(1);
  }

  /** With fewer than two columns the fallback indexes past the end: column 1 of 1, or column 0 of 0. */
  lemma TooFewColumns()
    ensures DetectRoles(["label"]) == Failure(IndexOutOfBounds(1, 1))
    ensures DetectRoles([]) == Failure(IndexOutOfBounds(0, 0))
  {
    PlainLabelHeader();
    assert !Matches(TextRole, ["label"][0]);
  }
}
