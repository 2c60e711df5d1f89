/**
 * `create_pdf` of app.py: the status derived from the report text, the fixed
 * text lines of the document, the download file name, and the document itself
 * as the sequence of text cells an FPDF object receives, each in the text
 * colour that was current when it was added.
 */
module Report {
  import opened Wrappers
  import opened Text

  /** The words whose presence in the upper-cased cleaned text marks a report authentic. */
  const Keywords: seq<string> := ["LEGIT", "AUTHENTIC", "VERIFIED"]

  const Title: string := "BOOTCHECK VERIFICATION REPORT"

  datatype Status = VerifiedAuthentic | InspectionRequired

  /** A text colour as given to `set_text_color`. */
  datatype Rgb = Rgb(red: int, green: int, blue: int)

  const Black := Rgb(0, 0, 0)
  const DarkGreen := Rgb(0, 100, 0)
  const DarkRed := Rgb(180, 0, 0)

  function Label(st: Status): (text: string)
    ensures text == "VERIFIED AUTHENTIC" || text == "INSPECTION REQUIRED"
    ensures text == "VERIFIED AUTHENTIC" <==> st == VerifiedAuthentic
  {
    match st
    case VerifiedAuthentic => "VERIFIED AUTHENTIC"
    case InspectionRequired => "INSPECTION REQUIRED"
  }

  function StatusColour(st: Status): (colour: Rgb)
    ensures colour != Black
    ensures colour.red > 0 <==> st == InspectionRequired
  {
    match st
    case VerifiedAuthentic => DarkGreen
    case InspectionRequired => DarkRed
  }

  /** `any(word in text for word in Keywords)`; the shortest keyword has five letters. */
  function HasKeyword(text: string): (b: bool)
    ensures b ==> |text| >= 5
  {
    exists k :: 0 <= k < |Keywords| && Contains(text, Keywords[k])
  }

  lemma KeywordsAreKeywordShaped(k: int)
    requires 0 <= k < |Keywords|
    ensures KeywordShaped(Keywords[k]) && AllLatin1(Keywords[k])
  {
  }

  /** On Latin-1 text, `str.upper` holds a keyword exactly when the ASCII upper case does. */
  lemma KeywordSearchByAsciiFold(c: string)
    ensures HasKeyword(Upper(c)) <==> HasKeyword(AsciiUpperAll(c))
  {
    forall k | 0 <= k < |Keywords|
      ensures Contains(Upper(c), Keywords[k]) <==> Contains(AsciiUpperAll(c), Keywords[k])
    {
      KeywordsAreKeywordShaped(k);
      UpperMatchesAsciiFold(c, Keywords[k]);
    }
  }

  /**
   * The status of a report: authentic when `clean_text.upper()` holds a
   * keyword, which happens exactly when the ASCII upper case of the cleaned
   * text holds one.
   */
  function DeriveStatus(reportText: string): (st: Status)
    ensures st == VerifiedAuthentic <==> HasKeyword(AsciiUpperAll(Clean(reportText)))
  {
    KeywordSearchByAsciiFold(Clean(reportText));
    if HasKeyword(Upper(Clean(reportText))) then VerifiedAuthentic else InspectionRequired
  }

  /** Changing the case of ASCII letters in the report never changes its status. */
  lemma StatusIgnoresAsciiCase(s: string, t: string)
    requires SameUpToAsciiCase(s, t)
    ensures DeriveStatus(s) == DeriveStatus(t)
  {
    FoldCleanCommute(s);
    FoldCleanCommute(t);
  }

  /**
   * A keyword that occurs in the raw report, in any ASCII case, survives
   * cleaning, so the report is marked authentic.
   */
  lemma RawKeywordSurvivesCleaning(reportText: string, k: int)
    requires 0 <= k < |Keywords| && Contains(AsciiUpperAll(reportText), Keywords[k])
    ensures DeriveStatus(reportText) == VerifiedAuthentic
  {
    KeywordsAreKeywordShaped(k);
    CleanKeepsOccurrence(AsciiUpperAll(reportText), Keywords[k]);
    FoldCleanCommute(reportText);
  }

  /**
   * A match that only `str.upper` of a character above U+00FF would make is
   * lost: `veri\U{FB01}ed` upper-cases to `VERIFIED` in Python, but cleaning
   * drops the ligature first, for any such character in its place.
   */
  lemma LigatureMatchIsLost(c: char)
    requires !IsLatin1(c)
    ensures DeriveStatus("VERI" + [c] + "ED") == InspectionRequired
  {
    CleanAppend("VERI" + [c], "ED");
    CleanAppend("VERI", [c]);
    assert Clean([c]) == [];
    var f := AsciiUpperAll(Clean("VERI" + [c] + "ED"));
    assert f == "VERIED";
    assert !Contains(f, Keywords[0]) by {
      assert f[0] != 'L' && f[1] != 'L';
    }
  }

  /**
   * The converse of RawKeywordSurvivesCleaning fails: dropping a character above U+00FF can join two
   * fragments into a keyword that the raw text does not hold, as in `LE€GIT`.
   */
  lemma CleaningCanJoinKeyword(c: char)
    requires !IsLatin1(c)
    ensures var raw := "LE" + [c] + "GIT";
      !HasKeyword(AsciiUpperAll(raw)) && DeriveStatus(raw) == VerifiedAuthentic
  {
    CleanDropsJoint(c);
    CleanedLegitIsAuthentic("LE" + [c] + "GIT");
    JointHidesKeyword(c);
  }

  lemma CleanDropsJoint(c: char)
    requires !IsLatin1(c)
    ensures Clean("LE" + [c] + "GIT") == "LEGIT"
  {
    CleanAppend("LE" + [c], "GIT");
    CleanAppend("LE", [c]);
    assert Clean([c]) == [];
  }

  lemma CleanedLegitIsAuthentic(raw: string)
    requires Clean(raw) == "LEGIT"
    ensures DeriveStatus(raw) == VerifiedAuthentic
  {
    var f := AsciiUpperAll(Clean(raw));
    assert f == "LEGIT";
    assert OccursAt(f, Keywords[0], 0);
  }

  lemma JointHidesKeyword(c: char)
    requires !IsLatin1(c)
    ensures !HasKeyword(AsciiUpperAll("LE" + [c] + "GIT"))
  {
    var f := AsciiUpperAll("LE" + [c] + "GIT");
    assert f[2] == c;
    assert f[0..5] != "LEGIT" by { assert f[0..5][2] != 'G'; }
    assert f[1..6] != "LEGIT" by { assert f[1..6][0] != 'L'; }
  }

  /** The line under the date: `f"PRODUCT: {brand.upper()} {model_name.upper()}"`. */
  function ProductLine(brand: string, modelName: string): (line: string)
    ensures |line| >= 10 + |brand| + |modelName| && line[..9] == "PRODUCT: "
  {
    "PRODUCT: " + Upper(brand) + " " + Upper(modelName)
  }

  /** The product line has no lower-case ASCII letter and ignores the case of its inputs. */
  lemma ProductLineIsUpperCase(brand: string, modelName: string, brand': string, modelName': string)
    requires SameUpToAsciiCase(brand, brand') && SameUpToAsciiCase(modelName, modelName')
    ensures NoAsciiLowercase(ProductLine(brand, modelName))
    ensures ProductLine(brand, modelName) == ProductLine(brand', modelName')
  {
    UpperHasNoLowercase(brand);
    UpperHasNoLowercase(modelName);
    var line := ProductLine(brand, modelName);
    var u, v := Upper(brand), Upper(modelName);
    forall i | 0 <= i < |line| ensures !('a' <= line[i] <= 'z') {
      if 9 <= i < 9 + |u| {
        assert line[i] == u[i - 9];
      } else if 10 + |u| <= i {
        assert line[i] == v[i - 10 - |u|];
      }
    }
    UpperIgnoresAsciiCase(brand, brand');
    UpperIgnoresAsciiCase(modelName, modelName');
  }

  /** For ASCII names, the product line holds their ASCII upper case. */
  lemma ProductLineOfAsciiNames(brand: string, modelName: string)
    requires forall i :: 0 <= i < |brand| ==> IsAscii(brand[i])
    requires forall i :: 0 <= i < |modelName| ==> IsAscii(modelName[i])
    ensures ProductLine(brand, modelName) ==
            "PRODUCT: " + AsciiUpperAll(brand) + " " + AsciiUpperAll(modelName)
  {
    UpperOfAscii(brand);
    UpperOfAscii(modelName);
  }

  /** `f"STATUS: {status_text}"`. */
  function StatusLine(st: Status): (line: string)
    ensures line == "STATUS: VERIFIED AUTHENTIC" || line == "STATUS: INSPECTION REQUIRED"
    ensures line == "STATUS: VERIFIED AUTHENTIC" <==> st == VerifiedAuthentic
  {
    assert ("STATUS: " + Label(st))[8] == Label(st)[0];
    "STATUS: " + Label(st)
  }

  /** Reads the status back from a status line. */
  function ParseStatusLine(line: string): (r: Option<Status>)
    ensures r.Some? ==> StatusLine(r.value) == line
  {
    if line == StatusLine(VerifiedAuthentic) then Some(VerifiedAuthentic)
    else if line == StatusLine(InspectionRequired) then Some(InspectionRequired)
    else None
  }

  lemma StatusLineRoundTrip(st: Status)
    ensures ParseStatusLine(StatusLine(st)) == Some(st)
  {
    assert StatusLine(VerifiedAuthentic)[8] != StatusLine(InspectionRequired)[8];
  }

  const FilePrefix: string := "BootCheck_"
  const FileSuffix: string := ".pdf"

  /** The download name `f"BootCheck_{user_model}.pdf"`, built from the raw model name. */
  function FileName(modelName: string): (name: string)
    ensures |name| == |modelName| + 14
    ensures name[..10] == "BootCheck_" && name[|name| - 4..] == ".pdf"
    ensures name[10..|name| - 4] == modelName
  {
    FilePrefix + modelName + FileSuffix
  }

  /** Reads the model name back from a download name. */
  function ModelNameOfFile(name: string): (r: Option<string>)
    ensures r.Some? ==> FileName(r.value) == name
  {
    if |name| >= |FilePrefix| + |FileSuffix| && name[..|FilePrefix|] == FilePrefix
       && name[|name| - |FileSuffix|..] == FileSuffix
    then
      var m := name[|FilePrefix|..|name| - |FileSuffix|];
      assert name == name[..|FilePrefix|] + m + name[|name| - |FileSuffix|..];
      Some(m)
    else None
  }

  lemma FileNameRoundTrip(modelName: string)
    ensures ModelNameOfFile(FileName(modelName)) == Some(modelName)
  {
    var name := FileName(modelName);
    assert name[..|FilePrefix|] == FilePrefix;
    assert name[|name| - |FileSuffix|..] == FileSuffix;
    assert name[|FilePrefix|..|name| - |FileSuffix|] == modelName;
  }

  /** `pdf.cell(..., ln=True)` writes one line; `pdf.multi_cell` writes reflowed text. */
  datatype CellKind = Line | Block

  datatype Cell = Cell(kind: CellKind, text: string, colour: Rgb)

  /** The text state of an FPDF document: its current text colour and the cells written so far. */
  class Pdf {
    var textColour: Rgb
    var cells: seq<Cell>

    /** A fresh document with one page; FPDF's initial text colour is black. */
    constructor ()
      ensures textColour == Black && cells == []
    {
      textColour := Black;
      cells := [];
    }

    method SetTextColour(c: Rgb)
      modifies this
      ensures textColour == c && cells == old(cells)
    {
      textColour := c;
    }

    method AddLine(text: string)
      modifies this
      ensures cells == old(cells) + [Cell(Line, text, old(textColour))]
      ensures textColour == old(textColour)
    {
      cells := cells + [Cell(Line, text, textColour)];
    }

    method AddBlock(text: string)
      modifies this
      ensures cells == old(cells) + [Cell(Block, text, old(textColour))]
      ensures textColour == old(textColour)
    {
      cells := cells + [Cell(Block, text, textColour)];
    }
  }

  /** The cells of the report document, in the order `create_pdf` writes them. */
  function Layout(reportText: string, brand: string, modelName: string, issued: string): (cells: seq<Cell>)
    ensures |cells| == 5 && cells[4] == Cell(Block, Clean(reportText), Black)
    ensures forall i :: 0 <= i < 4 ==> cells[i].kind == Line
  {
    var st := DeriveStatus(reportText);
    [ Cell(Line, Title, Black),
      Cell(Line, "Issued on: " + issued, Black),
      Cell(Line, ProductLine(brand, modelName), Black),
      Cell(Line, StatusLine(st), StatusColour(st)),
      Cell(Block, Clean(reportText), Black) ]
  }

  /**
   * `create_pdf(report_text, brand, model_name)`, with the issue date passed in.
   * The status line is written in the status colour; the colour is reset to
   * black before the body.
   */
  method CreatePdf(reportText: string, brand: string, modelName: string, issued: string)
    returns (pdf: Pdf)
    ensures fresh(pdf) && pdf.cells == Layout(reportText, brand, modelName, issued)
  {
    pdf := new Pdf();
    var cleanText := Clean(reportText);
    pdf.AddLine(Title);
    pdf.AddLine("Issued on: " + issued);
    pdf.AddLine(ProductLine(brand, modelName));
    var statusText := Label(InspectionRequired);
    pdf.SetTextColour(DarkRed);
    if HasKeyword(Upper(cleanText)) {
      statusText := Label(VerifiedAuthentic);
      pdf.SetTextColour(DarkGreen);
    }
    pdf.AddLine("STATUS: " + statusText);
    pdf.SetTextColour(Black);
    pdf.AddBlock(cleanText);
  }

  /**
   * The status cell says "VERIFIED AUTHENTIC" in dark green exactly when the
   * cleaned text holds a keyword in some ASCII case, and "INSPECTION REQUIRED"
   * in dark red otherwise; every other cell is black.
   */
  lemma LayoutStatusCell(reportText: string, brand: string, modelName: string, issued: string)
    ensures var cells := Layout(reportText, brand, modelName, issued);
      |cells| == 5 &&
      (if HasKeyword(AsciiUpperAll(Clean(reportText)))
       then cells[3] == Cell(Line, "STATUS: VERIFIED AUTHENTIC", Rgb(0, 100, 0))
       else cells[3] == Cell(Line, "STATUS: INSPECTION REQUIRED", Rgb(180, 0, 0))) &&
      forall i :: 0 <= i < 5 && i != 3 ==> cells[i].colour == Rgb(0, 0, 0)
  {
    StatusCellOf(reportText, brand, modelName, issued);
  }

  lemma StatusCellOf(reportText: string, brand: string, modelName: string, issued: string)
    ensures var cells := Layout(reportText, brand, modelName, issued);
      var st := DeriveStatus(reportText);
      |cells| == 5 && cells[3] == Cell(Line, StatusLine(st), StatusColour(st)) &&
      forall i :: 0 <= i < 5 && i != 3 ==> cells[i].colour == Black
  {
  }

  /**
   * The body of the document is the report text with exactly its Latin-1
   * characters, each as often as in the report and in the same order.
   */
  lemma LayoutBody(reportText: string, brand: string, modelName: string, issued: string)
    ensures var body := Layout(reportText, brand, modelName, issued)[4];
      body.kind == Block && AllLatin1(body.text) && IsSubsequence(body.text, reportText) &&
      forall c :: multiset(body.text)[c] == if IsLatin1(c) then multiset(reportText)[c] else 0
  {
    CleanIsSubsequence(reportText);
    forall c ensures multiset(Clean(reportText))[c] == if IsLatin1(c) then multiset(reportText)[c] else 0 {
      CleanCounts(reportText, c);
    }
  }

  /**
   * The search ignores word boundaries and negation: a report that calls the
   * boot illegitimate, `p + "legit" + q` with `p == "il"`, is marked authentic.
   */
  lemma KeywordInsideWordIsAuthentic(p: string, q: string)
    ensures DeriveStatus(p + "legit" + q) == VerifiedAuthentic
  {
    var raw := p + "legit" + q;
    var f := AsciiUpperAll(raw);
    assert f[|p|..|p| + 5] == "LEGIT" by {
      forall j | 0 <= j < 5 ensures f[|p| + j] == "LEGIT"[j] {
        assert raw[|p| + j] == "legit"[j];
      }
    }
    assert OccursAt(f, Keywords[0], |p|);
    RawKeywordSurvivesCleaning(raw, 0);
  }

  lemma IllegitimateIsAuthentic()
    ensures DeriveStatus("illegitimate") == VerifiedAuthentic
  {
    KeywordInsideWordIsAuthentic("il", "imate");
    assert "il" + "legit" + "imate" == "illegitimate";
  }

  /**
   * An answer that echoes the verdict format the prompt asks for,
   * `Verdict (LEGIT/FAKE)`, is marked authentic whatever verdict follows.
   */
  lemma EchoedPromptIsAuthentic(findings: string)
    ensures DeriveStatus("Verdict (LEGIT/FAKE): " + findings) == VerifiedAuthentic
  {
    var raw := "Verdict (LEGIT/FAKE): " + findings;
    var f := AsciiUpperAll(raw);
    assert f[9..14] == "LEGIT";
    assert OccursAt(f, Keywords[0], 9);
    RawKeywordSurvivesCleaning(raw, 0);
  }

  /** An empty report still renders, with the default status. */
  lemma EmptyReportNeedsInspection()
    ensures DeriveStatus("") == InspectionRequired
  {
  }

  /**
   * An engine answer that opens with "VERIFIED AUTHENTIC. " is marked
   * authentic whatever follows.
   */
  lemma PositiveAnswerIsAuthentic(findings: string)
    ensures DeriveStatus("VERIFIED AUTHENTIC. " + findings) == VerifiedAuthentic
  {
    var raw := "VERIFIED AUTHENTIC. " + findings;
    var f := AsciiUpperAll(raw);
    assert f[0..8] == "VERIFIED";
    assert OccursAt(f, Keywords[2], 0);
    RawKeywordSurvivesCleaning(raw, 2);
  }
}
