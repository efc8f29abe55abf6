# ByeSpam rule layer, modelled in Dafny

ByeSpam is a small desktop spam detector. It trains a TF-IDF vectoriser and a
multinomial Naive Bayes classifier on a labelled CSV file. It then classifies
text that the user types, or text that OCR reads from a screenshot. The
machine learning, the OCR and the window are library code. What the
program decides for itself is a thin layer of string rules around those
calls. This project models that layer and proves its properties:

- **Column roles** (`Training`): which CSV header is the label column and
  which is the message column. Each role takes its first keyword match. If
  either search finds nothing, both roles fall back to columns 0 and 1. With
  fewer than two columns that fallback fails.
- **Label normalisation** (`Training`): a raw label becomes `"Spam"` exactly
  when its lower-cased text contains `"spam"`. Every other label becomes
  `"Not Spam"`. The corpus is built from the two selected columns.
- **Input gates** (`Analysis`): typed text is stripped, then dropped if it is
  empty or is the placeholder. OCR output that is blank is replaced by a
  "Could not ..." sentence. Any image text containing "Could not" is never
  classified.
- **Result display** (`Display`): the 200-character preview, the result
  line's colour tag and the two bar heights.

`Text` models the Python string operations used: `str.lower()` on ASCII
letters, `str.strip()` with Python's whitespace set, and the substring test
`t in s`. `Contains` is proved equal to the existence of an occurrence.
`Wrappers` holds `Option` and `Result`.

The classifier is a function parameter `predict`, because the source calls
`nb.predict(tfidf.transform([text]))[0]` and never looks inside it. What the
OCR engine returned is an input value, `OcrResult`: either a recognised
string, or an error message from an exception.

## Model

| member | source | states |
|---|---|---|
| `Text.IsSpace` | ByeSpam.py:75 | True for exactly the 29 characters that Python's `str.isspace()` accepts. These are the characters `strip()` removes at lines 65 and 75. |
| `Text.Lower` | ByeSpam.py:28-29 | `str.lower()` on ASCII: the result has the same length and no upper-case ASCII letter. Each upper-case letter becomes its lower-case form, and every other character is unchanged. It is also used at line 40. |
| `Text.Contains` | ByeSpam.py:28-29 | Python's `t in s` (also used at lines 40 and 92): `t` is a prefix of `s` or of some tail of `s`. `ContainsIffOccurs` proves this equals "occurs at some index". |
| `Text.Strip` | ByeSpam.py:75 | `strip()` keeps one contiguous block of the input. Everything removed before and after it is whitespace. The block neither starts nor ends with whitespace. It is empty exactly when the input is all whitespace. |
| `Text.StripIdempotent` | ByeSpam.py:75 | Stripping twice gives the same result as stripping once. |
| `Text.StripPadded` | ByeSpam.py:75 | Wrap a non-blank string with non-space ends in whitespace on both sides; stripping gives back exactly that string. |
| `Text.ContainsIffOccurs` | ByeSpam.py:28-29 | The scanning substring test `t in s` is true exactly when `t` occurs in `s` at some index. |
| `Training.Matches` | ByeSpam.py:28-29 | The keyword test of each comprehension, on the lower-cased header. A label header contains `label` or `category`, or equals `v1`. A text header contains `message` or `text`, or equals `v2`. |
| `Training.Candidates` | ByeSpam.py:28-29 | The comprehension keeps only headers that match the role. It keeps every matching header. It is no longer than the header list. |
| `Training.FirstMatch` | ByeSpam.py:35-36 | Gives the first position whose header matches the role: that header matches and no earlier one does. It gives nothing exactly when no header matches. |
| `Training.CandidatesHeadIsFirstMatch` | ByeSpam.py:28-36 | The comprehension is non-empty exactly when a match exists. Its element `[0]` is the header at the first matching position. |
| `Training.DetectRoles` | ByeSpam.py:28-36 | If both searches match, each role is the header at its first match. If either search fails, the roles are columns 0 and 1. It fails exactly when the fallback is needed and there are fewer than two columns; the error is the index asked for and the column count. Chosen roles are always headers. |
| `Training.FallbackIgnoresOtherMatch` | ByeSpam.py:31-33 | With two or more columns and no text header, the roles are columns 0 and 1, even if a label header exists elsewhere. |
| `Training.SwappedHeadersFallBack` | ByeSpam.py:31-33 | For headers `body`, `label` the label role goes to `body` and the text role to `label`. |
| `Training.SharedHeader` | ByeSpam.py:28-36 | A lone header that matches both keyword sets takes both roles. |
| `Training.TextLabelMatchesBoth` | ByeSpam.py:28-36 | `text label` matches both keyword sets, so on its own it is both the label and the text column. |
| `Training.SharedHeaderAfterLabel` | ByeSpam.py:28-36 | With headers `label`, `text label` the label role goes to `label` and the text role to `text label`: each role takes its own first match, even when a later header matches both. |
| `Training.TooFewColumns` | ByeSpam.py:31-33 | Two instances: `["label"]` fails at column 1 of 1, and `[]` fails at column 0 of 0. The general rule for fewer than two columns is the contract of `DetectRoles`. |
| `Training.CanonicalHeaders` | ByeSpam.py:28-36 | The dataset headers `v1`, `v2`, `Unnamed: 2..4` give label `v1` and text `v2`. |
| `Training.MixedCaseHeaders` | ByeSpam.py:28-36 | `Category`, `Message` give the same positions as `v1`, `v2`. |
| `Training.NormalizeLabel` | ByeSpam.py:40 | The result is always `"Spam"` or `"Not Spam"`. It is `"Spam"` exactly when `"spam"` occurs in the lower-cased label. |
| `Training.NormalizeTwiceIsSpam` | ByeSpam.py:40 | The mapping is not idempotent: `"Not Spam"` maps to `"Spam"`, so normalising any label twice gives `"Spam"`. |
| `Training.NormalizeExamples` | ByeSpam.py:40 | `"spam"` and `"SPAM"` map to `"Spam"`. `"ham"` and the empty label map to `"Not Spam"`. |
| `Training.NormalizeColumn` | ByeSpam.py:40 | The mapped column has the same length. Each entry is the normalisation of the label at the same position, so each is one of the two class names. |
| `Training.ColumnIndex` | ByeSpam.py:38 | Selecting a column by name gives the first position that holds that name. |
| `Training.LoadCorpus` | ByeSpam.py:28-40 | Fails exactly when role detection fails, with the same error. Otherwise there is one example per row. Its class is the normalised cell of the label column, and its message is the cell of the text column. |
| `Display.Preview` | ByeSpam.py:103 | The preview is at most 203 characters. It agrees with the text on the first `min(len, 200)` characters. Text of at most 200 characters is kept unchanged. Longer text becomes 203 characters ending in `"..."`. |
| `Display.PreviewIdempotent` | ByeSpam.py:103 | Previewing a preview changes nothing. |
| `Display.PreviewFixesLongText` | ByeSpam.py:103 | 200 characters followed by `"..."` come back unchanged, so "longer than 200" does not imply "changed". |
| `Display.ResultTag` | ByeSpam.py:105 | The tag is `"spam"` or `"safe"`, and it is `"spam"` exactly when the result is `"Spam"`. |
| `Display.BarValues` | ByeSpam.py:299 | Two 0/1 heights that sum to 1. The first bar is 1 exactly when the result is `"Spam"`. |
| `Display.RaisedBarIsResult` | ByeSpam.py:298-299 | For either class name, the raised bar is the one whose category equals the result. |
| `Display.ResultBox` | ByeSpam.py:100-105 | The box gets two inserts. The first is tagged `"normal"` and is the heading `Extracted Text (partial):` followed by the preview and a blank line. The second is `Result: ` followed by the result, tagged by `ResultTag`: `"spam"` exactly for `"Spam"` and `"safe"` for every other result. |
| `Analysis.TypedText` | ByeSpam.py:75-78 | Typed content passes exactly when its stripped form is neither empty nor the placeholder. What passes is the stripped form, and it has non-space ends. |
| `Analysis.BlankTextIgnored` | ByeSpam.py:75-78 | All-whitespace content never passes the gate. |
| `Analysis.PaddedPlaceholderIgnored` | ByeSpam.py:75-78 | The placeholder with any whitespace around it never passes. |
| `Analysis.PaddedTextClassified` | ByeSpam.py:75-79 | Any other non-blank text with whitespace padding passes, minus the padding. |
| `Analysis.AnalyzeTextInput` | ByeSpam.py:74-81 | The outcome is the "Empty Input" warning exactly when the gate rejects. Otherwise it is `Show` of the stripped text and its prediction. The tag is `"spam"` with bar 0 raised for `"Spam"`, and `"safe"` with bar 1 raised otherwise. |
| `Analysis.Show` | ByeSpam.py:79-81 | The outcome carries exactly `ResultBox(result, text)` and `BarValues(result)`. For `"Spam"` the tag is `"spam"` and bar 0 is raised. For every other result the tag is `"safe"` and bar 1 is raised. |
| `Analysis.EmptyInputExamples` | ByeSpam.py:74-78 | `""`, `"   \n"` and the placeholder plus the widget's newline all give the "Empty Input" warning. |
| `Analysis.RecognizeText` | ByeSpam.py:62-67 | The result is never blank. Non-blank OCR text is returned as it is. Blank text gives exactly "Could not read any text.". An error gives "Could not process image: " followed by the error message. Both replacements contain "Could not". |
| `Analysis.ImageText` | ByeSpam.py:84-94 | Image text passes exactly when a file was chosen, OCR read non-blank text, and that text does not contain "Could not". What passes is the OCR text itself. |
| `Analysis.AnalyzeImageInput` | ByeSpam.py:84-97 | The outcome is "cancelled" exactly when no path was chosen. Text is shown exactly when the image gate passes; otherwise the "OCR Result" notice appears. What is shown is `Show` of the OCR text and its prediction. The tag is `"spam"` with bar 0 raised for `"Spam"`, and `"safe"` with bar 1 raised otherwise. |
| `Analysis.UnreadableImageNeverClassified` | ByeSpam.py:62-94 | Once a file is chosen, blank OCR output or an OCR error always ends in the "OCR Result" notice. |
| `Analysis.GenuineMarkerTextRejected` | ByeSpam.py:92-94 | For any chosen file, recognised text that contains "Could not" ends in the "OCR Result" notice and is never classified. |
| `Analysis.RaisedBarNamesResult` | ByeSpam.py:293-299 | Suppose the classifier only answers with a trained class name. Then every outcome shown by either button raises the bar whose category equals the prediction. |

## Left out

- TF-IDF vectorisation and Multinomial Naive Bayes (ByeSpam.py:42-46, 57-59): scikit-learn calls whose numerics are not part of the file. `predict` is an arbitrary function `string -> string`.
- Reading `spam.csv` with pandas in Latin-1 (ByeSpam.py:26): the model starts from the parsed header list and rows of strings. Label cells stand for the result of `str(x)` at line 40, so a missing label arrives as `"nan"`. Message cells are assumed to be strings. A missing message would reach the vectoriser at line 43 unconverted and fail there. That failure belongs to the left-out vectoriser and ends in `sys.exit`.
- Training.ColumnIndex: selects the first column with the given name. `read_csv` renames duplicate headers, so names are distinct and this is the one column the source selects. With duplicate names, `df[[name]]` would select every copy, and the model does not capture that.
- Training.LoadCorpus: requires rows as wide as the header list. pandas always gives a rectangular frame, so this excludes no input the source sees.
- OCR through pytesseract and PIL (ByeSpam.py:64): its answer is the input `OcrResult`.
- The file dialog (ByeSpam.py:85-88): its answer is the input `path`. The empty string means cancelled.
- `messagebox` and `sys.exit` in `train_model` (ByeSpam.py:49-52): a failure is the `Failure` value of `DetectRoles`/`LoadCorpus`. The only failure the modelled lines can raise is pandas' index error in the fallback.
- The placeholder focus handlers (ByeSpam.py:166-177), the tkinter layout, the colours and fonts, the matplotlib figure, `resource_path` and the success `print`: presentation and packaging.
- Text.Lower: lower-cases ASCII letters only, while Python's `str.lower()` covers all of Unicode. Every keyword tested here (`label`, `category`, `v1`, `message`, `text`, `v2`, `spam`) is ASCII. No non-ASCII character lower-cases to one of their letters; U+0130 gives `i` plus a combining mark, and the Kelvin sign gives `k`, neither of which is in a keyword. So the keyword tests come out the same.
- Python `str.strip()` is modelled with the full set of characters for which `str.isspace()` is true.
- The code defines no dedicated error for a missing column, an empty corpus or empty input. With no keyword match it falls back to the first two columns. A one-class corpus goes to the classifier unchecked. Empty input gets a warning box.
