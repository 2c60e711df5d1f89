# BootCheck — a Dafny model of its decision rules

BootCheck is a one-page Streamlit app (`app.py`). The user uploads photos of a football boot, the app sends them to a Gemini generation model, and it shows the model's free-text verdict with a PDF report to download. This project models the parts of that page that follow exact rules, and proves properties about them:

* **Setup** (`Engine`, `engine.dfy`). The app keeps only the listed models that support `generateContent`. It picks the first of them whose lower-case name contains `flash`, or else the first one. With no API key, a listing that raised, or an empty filtered list, the `engine` stays `None`. The model listing is passed in as a parameter.
* **Report rendering** (`Text`, `text.dfy`, and `Report`, `report.dfy`):
  * the report text is cleaned to Latin-1 by dropping every code point above U+00FF;
  * `str.upper` is applied to the cleaned text, modelled exactly for the Latin-1 range, including `ß → SS`;
  * the status is derived by searching for `LEGIT`, `AUTHENTIC` or `VERIFIED`, and each status has its colour;
  * the product line, the status line and the download name are built from fixed texts.

  The FPDF document is a small class. It holds the current text colour and the sequence of text cells written so far. `CreatePdf` drives it the way `create_pdf` does, and is proved to produce `Layout`, the specification of the document's cells.
* **The page's run step** (`Page`, `page.dfy`). The session's `report` slot is a field of the class `Session`:
  * "RUN VERIFICATION" checks for the engine first, then for the three mandatory images;
  * it builds the evidence list with conditional appends;
  * an engine answer overwrites the report, and a failure leaves it alone.

  The engine call is replaced by its outcome, passed in. `Run` is the pure specification of one press of the button. `Session.RunVerification` is proved equal to it. The report section is shown only for a non-empty report.

`Wrappers` (`wrappers.dfy`) holds the `Option` type that stands for Python's `None`.

Four behaviours of the code that the model follows and a reader might not expect:
* The code searches the *cleaned* text for the keywords, not the raw text. A keyword in the raw text in any ASCII case always survives (`RawKeywordSurvivesCleaning`). But cleaning can also create a match the raw text does not hold (`CleaningCanJoinKeyword`). It can also lose one that Python's `upper` of the raw text would find: `"veri\ufb01ed".upper()` holds `VERIFIED` (U+FB01 becomes `FI`), yet cleaning drops U+FB01, so the report needs inspection (`LigatureMatchIsLost`). U+0131 in `leg\u0131t` is lost the same way.
* The keyword test is a plain substring search, blind to word boundaries and negation. "illegitimate" holds `LEGIT`, so it marks the report authentic (`KeywordInsideWordIsAuthentic`, `IllegitimateIsAuthentic`). So does an answer that echoes the prompt's `Verdict (LEGIT/FAKE)` format, whatever verdict follows (`EchoedPromptIsAuthentic`).
* The code never validates the weight. It checks only that the side, sole and tag images are present, which already means at least three images.
* A response text that is empty is stored, but the report section stays hidden, because the `if st.session_state.report:` test treats an empty string as false.

## Model

| member | source | states |
|---|---|---|
| Text.Clean | app.py:37 | The cleaned text holds only Latin-1 characters and is no longer than the input. It equals the input when the input is all Latin-1, and is strictly shorter otherwise. |
| Text.CleanAppend | app.py:37 | Cleaning a concatenation cleans each part: every character is kept or dropped on its own. |
| Text.CleanCounts | app.py:37 | Every Latin-1 character occurs in the cleaned text exactly as often as in the input; every other character occurs zero times. |
| Text.CleanMembers | app.py:37 | A character is in the cleaned text iff it is in the input and is Latin-1. |
| Text.CleanIsSubsequence | app.py:37 | The cleaned text is a subsequence of the input, so the characters keep their order. |
| Text.CleanIdempotent | app.py:37 | Cleaning twice equals cleaning once. |
| Text.CleanFixedPoints | app.py:37 | Cleaning leaves a text unchanged iff every character of it is Latin-1. |
| Text.UpperChar | app.py:45 | `str.upper` on one Latin-1 character: 1 or 2 characters, and 2 exactly for `ß` (which becomes `SS`). Characters above U+00FF are kept unchanged. |
| Text.Upper | app.py:45 | `s.upper()` as the concatenation of the characters' upper cases; never shorter than `s`. |
| Text.UpperLength | app.py:45 | The upper case is longer than the text by exactly the number of `ß` in it. |
| Text.Contains | app.py:48 | Python's `w in s` on strings, true when `w` occurs at some position of `s`. A contained word is no longer than the text, and the empty word is in every text. |
| Text.UpperHasNoLowercase | app.py:45 | The upper case of any text contains no ASCII letter `a`..`z`. |
| Text.UpperIdempotent | app.py:45 | Upper-casing an upper-cased text changes nothing, `ß → SS` included. |
| Text.UpperIgnoresAsciiCase | app.py:45 | Two texts that differ only in the case of ASCII letters have the same upper case. |
| Text.UpperOfAscii | app.py:45 | On ASCII text, `str.upper` is the ASCII upper case. |
| Text.UpperMatchesAsciiFold | app.py:48 | For any word of ASCII capitals without `S`, `Upper(t)` contains the word iff the ASCII upper case of `t` does. On all-Latin-1 text, which is what app.py:48 searches, `Upper` is `str.upper`, so there full case mapping never creates or hides a keyword. |
| Text.FoldCleanCommute | app.py:37-48 | ASCII upper-casing and Latin-1 cleaning commute. |
| Text.CleanKeepsOccurrence | app.py:37-48 | Any occurrence of an all-Latin-1 word in the input is still an occurrence after cleaning. |
| Report.Label | app.py:46-49 | The status text: `VERIFIED AUTHENTIC` exactly for `VerifiedAuthentic`, `INSPECTION REQUIRED` otherwise. Its pairing with the colour is stated through `StatusLine` and `LayoutStatusCell`. |
| Report.StatusColour | app.py:47-50 | The status colour: red is non-zero, as in (180,0,0), exactly for `InspectionRequired`, and it is never black. The pairing (0,100,0) / (180,0,0) with each status is stated through `LayoutStatusCell`. |
| Report.HasKeyword | app.py:48 | This is the definition of `any(word in text for word in ["LEGIT", "AUTHENTIC", "VERIFIED"])`; its ensures gives only a length bound. What is proved about the search is in `DeriveStatus` and `LayoutStatusCell`. |
| Report.DeriveStatus | app.py:46-50 | The status starts as `InspectionRequired` and becomes `VerifiedAuthentic` when `clean_text.upper()` holds a keyword. That happens iff the ASCII upper case of the cleaned text contains `LEGIT`, `AUTHENTIC` or `VERIFIED`. |
| Report.StatusIgnoresAsciiCase | app.py:48 | Changing the case of ASCII letters in the report never changes its status. |
| Report.RawKeywordSurvivesCleaning | app.py:37-50 | If the raw report contains a keyword in any ASCII case, its status is `VerifiedAuthentic`. |
| Report.CleaningCanJoinKeyword | app.py:37-50 | For every character above U+00FF, `LE`+c+`GIT` contains no keyword in any case, yet its status is `VerifiedAuthentic`. So the converse of the previous row fails. |
| Report.LigatureMatchIsLost | app.py:37-50 | For every character c above U+00FF, `VERI`+c+`ED` needs inspection: cleaning drops c before the upper case. With c = U+FB01, Python's `upper` of the raw text would hold `VERIFIED`. |
| Report.KeywordInsideWordIsAuthentic | app.py:48-49 | Any report `p + "legit" + q` is `VerifiedAuthentic`: the search ignores word boundaries and negation. |
| Report.IllegitimateIsAuthentic | app.py:48-49 | The report "illegitimate" is `VerifiedAuthentic`. |
| Report.EchoedPromptIsAuthentic | app.py:48-49 | An answer that opens with the prompt's `Verdict (LEGIT/FAKE): ` is `VerifiedAuthentic` whatever follows. |
| Report.EmptyReportNeedsInspection | app.py:46-50 | An empty report gets the default status `InspectionRequired`. |
| Report.PositiveAnswerIsAuthentic | app.py:48-49 | An answer that starts with "VERIFIED AUTHENTIC. " is `VerifiedAuthentic`, whatever follows. |
| Report.ProductLine | app.py:45 | `PRODUCT: ` + upper-case brand + ` ` + upper-case model; at least 10 characters longer than brand and model together. |
| Report.ProductLineIsUpperCase | app.py:45 | The product line contains no lower-case ASCII letter. Brand and model names that differ only in ASCII case give the same line. |
| Report.ProductLineOfAsciiNames | app.py:45 | For ASCII names, the product line is `PRODUCT: ` + the upper-case brand + ` ` + the upper-case model. |
| Report.StatusLine | app.py:46-52 | The status line is one of the two texts `STATUS: VERIFIED AUTHENTIC` and `STATUS: INSPECTION REQUIRED`, and the first exactly for `VerifiedAuthentic`. |
| Report.ParseStatusLine | app.py:52 | A status read back from a line is one whose status line is that line. |
| Report.StatusLineRoundTrip | app.py:52 | The status line of a status reads back as that status, so the two status lines are distinct. |
| Report.FileName | app.py:109 | The download name starts with `BootCheck_` and ends with `.pdf`, and the raw model name sits unchanged between them. |
| Report.ModelNameOfFile | app.py:109 | A model name read back from a file name is one whose download name is that file name. |
| Report.FileNameRoundTrip | app.py:109 | `BootCheck_<model>.pdf` reads back as exactly the raw model name. |
| Report.Pdf.constructor | app.py:35-36 | A new document has no cells, and its text colour is black. |
| Report.Pdf.SetTextColour | app.py:47 | Sets the current text colour and writes nothing. |
| Report.Pdf.AddLine | app.py:39 | Appends one line cell in the current colour and leaves the colour as it is. |
| Report.Pdf.AddBlock | app.py:56 | Appends one reflowed text block in the current colour. |
| Report.Layout | app.py:34-57 | The document's five cells in the order `create_pdf` writes them. The first four are lines, and the last is the cleaned report as a black block. |
| Report.CreatePdf | app.py:34-57 | The document built by the sequence of colour changes and cells is exactly `Layout`: the title, the issue line, the product line, the status line and the cleaned body, in that order. |
| Report.LayoutStatusCell | app.py:46-53 | The status cell is "STATUS: VERIFIED AUTHENTIC" in (0,100,0) iff the cleaned text contains a keyword in any ASCII case. Otherwise it is "STATUS: INSPECTION REQUIRED" in (180,0,0). Every other cell is black. |
| Report.LayoutBody | app.py:37-56 | The body block is all Latin-1 and a subsequence of the report. It contains each Latin-1 character exactly as often as the report does, and no other character. |
| Engine.Available | app.py:25 | The filtered names are exactly the names of listed models that support `generateContent`. There are no more of them than models listed. |
| Engine.AvailableAppend | app.py:25 | Filtering keeps the listing order. |
| Engine.IsFlash | app.py:26 | This is the definition of `'flash' in m.lower()`; its ensures gives only a length bound. What is proved about the choice is in `FirstFlash` and `SelectModel`. |
| Engine.FirstFlash | app.py:26 | The result is the position of the first name whose lower case contains `flash`, or none when no name does. |
| Engine.SelectModel | app.py:26 | The selection is `None` iff the filtered list is empty, and is always a member of the list. It is the first flash name when one exists, and the first name otherwise. |
| Engine.InitEngine | app.py:21-31 | The setup block. The key is missing exactly when there is no key. A ready engine is one of the filtered names of a listing that succeeded. |
| Engine.EngineOf | app.py:21-27 | The `engine` variable after setup: it is set exactly when setup is ready, and then holds the selected model. |
| Engine.InitEngineOutcome | app.py:21-31 | The engine exists iff the key is present, the listing succeeded and some listed model supports `generateContent`. It is then the name of such a model, and a flash one whenever a flash one exists. |
| Engine.NoKeyNoEngine | app.py:23-29 | Without the API key, setup reports the missing key and there is no engine. |
| Page.Uploads.HasMandatory | app.py:88 | `side_img and sole_img and tag_img`: the first three slots, in evidence order, are all filled. |
| Page.PresentMembers | app.py:90-92 | An image is in the evidence of a list of slots iff some slot holds it. |
| Page.BuildEvidence | app.py:90-92 | The evidence list is side, sole, tag, then heel if present, then stitching if present. It has 3 plus the number of optional images present, so between 3 and 5. |
| Page.Run | app.py:85-101 | One press of the button. When the engine is called, it exists and receives the filled slots in order. The report slot changes only on an engine answer. |
| Page.RunGating | app.py:85-101 | The engine is called iff it exists and side, sole and tag are all present. A missing engine is reported first, and missing images second. When no call is made, the report is unchanged. |
| Page.RunReportUpdate | app.py:95-99 | After a run, the report slot holds the engine's answer if the engine was called and answered. Otherwise it holds the previous value. |
| Page.RunEvidence | app.py:88-92 | The images sent begin with side, sole and tag. There are 3 to 5 of them: 3 plus the optional ones present. |
| Page.OptionalImagesIrrelevantWhenGated | app.py:88-101 | When a mandatory image is missing, the heel and stitching slots do not affect the step. |
| Page.ReportVisible | app.py:103 | `if st.session_state.report:`. A visible report is present, and an empty answer is never shown. |
| Page.Session.constructor | app.py:82-83 | The session's report slot starts as `None`. |
| Page.Session.RunVerification | app.py:85-101 | The new report slot, the notice and the request sent to the engine are exactly those that `Run` gives for the old slot. |
| Page.Session.ReportSection | app.py:103-109 | The section is shown iff the report slot holds a non-empty text. The section shows that text, the PDF `Layout` of it and `BootCheck_<model>.pdf`. |
| Page.Session.Interact | app.py:85-111 | A rerun applies the run step only if the button was pressed; otherwise the slot is unchanged. It then shows the report section for the slot as it now stands. |

## Left out

- The Streamlit UI is presentation only: page configuration, CSS, sidebar widgets, columns, spinner and the display of errors and warnings (app.py:8-18, 60-80). Messages appear only as the `Setup` and `Notice` values.
- The remote generation service is a foreign network API. `genai.configure` is not modelled. The result of `genai.list_models()` is a parameter (`None` when it raised). `genai.GenerativeModel(...)` is assumed not to raise. The outcome of `generate_content` is a parameter.
- The prompt string (app.py:94) is not modelled. The request holds only the image list.
- The script reruns from the top on every interaction, so setup repeats each time. The model takes the engine as a parameter of each step.
- Image decoding with PIL (app.py:93) is a foreign library, so images are opaque tokens. A decoding error there is raised outside the `try`; that path is not modelled.
- FPDF fonts, cell sizes, the rule line, line breaks, reflow and the byte output are not modelled; they belong to an unseen library. So is FPDF's error on characters its core font cannot encode, which can arise for the product line because only the body is cleaned. The `PDF error` warning around document creation (app.py:107-111) is left out with them.
- The issue date (`datetime.date.today()`, app.py:41) is a clock read. It becomes the string parameter `issued`.
- Text.Upper, Text.UpperChar: code points above U+00FF are left unchanged, where Python's `str.upper` maps some of them (U+FB01 becomes `FI`, U+0131 becomes `I`). The report is cleaned to Latin-1 first, where `Upper` is exact, so this affects only the product line.
- Report.ProductLineIsUpperCase: the upper case is exact only for code points up to U+00FF. Code points above U+00FF are left unchanged, where Python applies full Unicode case mapping. This affects only the product line, because the status is computed on Latin-1 text.
- Engine.FirstFlash: `name.lower()` is modelled as ASCII lower-casing. The `flash` test is still exact. Only two non-ASCII characters lower-case to ASCII letters: the Kelvin sign U+212A gives `k`, and U+0130 gives `i` followed by U+0307. Neither `k` nor `i` is a letter of `flash`.
- The tier and weight inputs reach only the prompt, so they do not appear in the model. The brand also reaches the product line (app.py:45, 108), where the model carries it. The code validates none of the three.
