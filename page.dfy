/**
 * The interactive part of app.py: the five upload slots, the "RUN
 * VERIFICATION" step and the report section below it. The session's
 * `report` slot is the only state that survives from one interaction to the
 * next. The remote generation call is replaced by its outcome, passed in.
 */
module Page {
  import opened Wrappers
  import opened Report

  /** An uploaded image file, as an opaque token. */
  datatype Image = Image(id: nat)

  /** The five upload slots: side profile, soleplate and inner tag are mandatory. */
  datatype Uploads = Uploads(
    side: Option<Image>, sole: Option<Image>, tag: Option<Image>,
    heel: Option<Image>, stitching: Option<Image>)
  {
    /** `side_img and sole_img and tag_img`. */
    function HasMandatory(): (b: bool)
      ensures b <==> forall i :: 0 <= i < 3 ==> Slots()[i].Some?
    {
      assert Slots()[0] == side && Slots()[1] == sole && Slots()[2] == tag;
      side.Some? && sole.Some? && tag.Some?
    }

    /** The slots in the order the evidence list takes them. */
    function Slots(): (slots: seq<Option<Image>>)
      ensures |slots| == 5
    {
      [side, sole, tag, heel, stitching]
    }
  }

  /** The values of the filled slots, in slot order. */
  function Present(slots: seq<Option<Image>>): (r: seq<Image>)
    ensures |r| <= |slots|
  {
    if slots == [] then []
    else (if slots[0].Some? then [slots[0].value] else []) + Present(slots[1..])
  }

  lemma {:induction false} PresentAppend(a: seq<Option<Image>>, b: seq<Option<Image>>)
    ensures Present(a + b) == Present(a) + Present(b)
  {
    if a == [] {
      assert a + b == b;
    } else {
      assert (a + b)[0] == a[0];
      assert (a + b)[1..] == a[1..] + b;
      PresentAppend(a[1..], b);
    }
  }

  /** The filled slots are exactly the present values. */
  lemma {:induction false} PresentMembers(slots: seq<Option<Image>>, x: Image)
    ensures x in Present(slots) <==> Some(x) in slots
  {
    if slots != [] {
      PresentMembers(slots[1..], x);
      assert slots == [slots[0]] + slots[1..];
    }
  }

  /** The filled slots of an upload: the mandatory ones, then the optional ones. */
  lemma PresentSlots(u: Uploads)
    requires u.HasMandatory()
    ensures Present(u.Slots()) == [u.side.value, u.sole.value, u.tag.value] + Present([u.heel, u.stitching])
    ensures Present([u.heel, u.stitching]) ==
            (if u.heel.Some? then [u.heel.value] else []) + (if u.stitching.Some? then [u.stitching.value] else [])
  {
    PresentAppend([u.side, u.sole, u.tag], [u.heel, u.stitching]);
    PresentAppend([u.side, u.sole], [u.tag]);
    PresentAppend([u.side], [u.sole]);
    PresentAppend([u.heel], [u.stitching]);
    assert u.Slots() == [u.side, u.sole, u.tag] + [u.heel, u.stitching];
  }

  /**
   * `uploaded_list`: the three mandatory images, then the heel image and the
   * stitching image when they were uploaded.
   */
  method BuildEvidence(u: Uploads) returns (images: seq<Image>)
    requires u.HasMandatory()
    ensures images == Present(u.Slots())
    ensures |images| == 3 + |Present([u.heel, u.stitching])| && 3 <= |images| <= 5
    ensures images[..3] == [u.side.value, u.sole.value, u.tag.value]
    ensures u.heel.Some? ==> images[3] == u.heel.value
    ensures u.stitching.Some? ==> images[|images| - 1] == u.stitching.value
  {
    images := [u.side.value, u.sole.value, u.tag.value];
    if u.heel.Some? {
      images := images + [u.heel.value];
    }
    if u.stitching.Some? {
      images := images + [u.stitching.value];
    }
    PresentSlots(u);
  }

  /** What the engine call produced: the response text, or the exception it raised. */
  datatype EngineOutcome = Answer(text: string) | Failed(cause: string)

  /** The message the step shows, if any. */
  datatype Notice = EngineNotReady | TooFewImages | AnalysisFailed(cause: string) | NoNotice

  /**
   * The result of one press of "RUN VERIFICATION": the new report slot, the
   * message shown, and the images sent to the engine (`None` when the engine
   * was not called).
   */
  datatype RunResult = RunResult(report: Option<string>, notice: Notice, request: Option<seq<Image>>)

  /** The step as a function of the old report slot, the engine, the uploads and the engine outcome. */
  function Run(report: Option<string>, engine: Option<string>, u: Uploads, outcome: EngineOutcome): (r: RunResult)
    ensures r.request.Some? ==> engine.Some? && r.request.value == Present(u.Slots())
    ensures r.report != report ==> r.request.Some? && outcome.Answer?
  {
    if engine.None? then RunResult(report, EngineNotReady, None)
    else if !u.HasMandatory() then RunResult(report, TooFewImages, None)
    else match outcome
      case Answer(text) => RunResult(Some(text), NoNotice, Some(Present(u.Slots())))
      case Failed(cause) => RunResult(report, AnalysisFailed(cause), Some(Present(u.Slots())))
  }

  /**
   * The engine is called exactly when it exists and the three mandatory
   * images are there; a missing engine is reported first.
   */
  lemma RunGating(report: Option<string>, engine: Option<string>, u: Uploads, outcome: EngineOutcome)
    ensures var r := Run(report, engine, u, outcome);
      (r.request.Some? <==> engine.Some? && u.HasMandatory()) &&
      (r.notice == EngineNotReady <==> engine.None?) &&
      (r.notice == TooFewImages <==> engine.Some? && !u.HasMandatory()) &&
      (r.request.None? ==> r.report == report)
  {
  }

  /**
   * The report slot changes only on an engine answer, and then holds exactly
   * the answer's text; a failed call leaves the previous report intact.
   */
  lemma RunReportUpdate(report: Option<string>, engine: Option<string>, u: Uploads, outcome: EngineOutcome)
    ensures Run(report, engine, u, outcome).report ==
            if engine.Some? && u.HasMandatory() && outcome.Answer? then Some(outcome.text) else report
  {
  }

  /** The images sent are the mandatory three, then the optional ones present: three to five. */
  lemma RunEvidence(report: Option<string>, engine: Option<string>, u: Uploads, outcome: EngineOutcome)
    requires Run(report, engine, u, outcome).request.Some?
    ensures var images := Run(report, engine, u, outcome).request.value;
      3 <= |images| <= 5 && |images| == 3 + |Present([u.heel, u.stitching])| &&
      images[..3] == [u.side.value, u.sole.value, u.tag.value]
  {
    PresentSlots(u);
  }

  /** Without the mandatory images, the optional ones make no difference. */
  lemma OptionalImagesIrrelevantWhenGated(
    report: Option<string>, engine: Option<string>, u: Uploads, heel: Option<Image>,
    stitching: Option<Image>, outcome: EngineOutcome)
    requires !u.HasMandatory()
    ensures Run(report, engine, u, outcome) ==
            Run(report, engine, u.(heel := heel, stitching := stitching), outcome)
  {
  }

  /** `if st.session_state.report:`: the report section shows a report that is there and not empty. */
  function ReportVisible(report: Option<string>): (b: bool)
    ensures b ==> report.Some?
    ensures report == Some("") ==> !b
  {
    report.Some? && report.value != ""
  }

  /** What the report section shows: the report text, the PDF document and its download name. */
  datatype ReportView = ReportView(markdown: string, document: seq<Cell>, fileName: string)

  class Session {
    /** `st.session_state.report`. */
    var report: Option<string>

    /** The slot is created empty the first time the script runs in a session. */
    constructor ()
      ensures report == None
    {
      report := None;
    }

    /** One press of "RUN VERIFICATION". */
    method RunVerification(engine: Option<string>, u: Uploads, outcome: EngineOutcome)
      returns (notice: Notice, request: Option<seq<Image>>)
      modifies this
      ensures Run(old(report), engine, u, outcome) == RunResult(report, notice, request)
    {
      request := None;
      if engine.None? {
        notice := EngineNotReady;
      } else if u.HasMandatory() {
        var images := BuildEvidence(u);
        request := Some(images);
        match outcome
        case Answer(text) =>
          report := Some(text);
          notice := NoNotice;
        case Failed(cause) =>
          notice := AnalysisFailed(cause);
      } else {
        notice := TooFewImages;
      }
    }

    /**
     * The report section: shown only for a non-empty report, with the PDF
     * built from it and the download name built from the raw model name.
     */
    method ReportSection(brand: string, modelName: string, issued: string)
      returns (view: Option<ReportView>)
      ensures view.Some? <==> ReportVisible(report)
      ensures view.Some? ==>
        view.value == ReportView(report.value, Layout(report.value, brand, modelName, issued), FileName(modelName))
    {
      if report.Some? && report.value != "" {
        var text := report.value;
        var pdf := CreatePdf(text, brand, modelName, issued);
        view := Some(ReportView(text, pdf.cells, FileName(modelName)));
      } else {
        view := None;
      }
    }

    /**
     * One run of the script after setup: the button step if it was pressed,
     * then the report section on the slot as it now stands.
     */
    method Interact(pressed: bool, engine: Option<string>, u: Uploads, outcome: EngineOutcome,
                    brand: string, modelName: string, issued: string)
      returns (notice: Notice, request: Option<seq<Image>>, view: Option<ReportView>)
      modifies this
      ensures pressed ==> Run(old(report), engine, u, outcome) == RunResult(report, notice, request)
      ensures !pressed ==> report == old(report) && notice == NoNotice && request == None
      ensures view.Some? <==> ReportVisible(report)
      ensures view.Some? ==>
        view.value == ReportView(report.value, Layout(report.value, brand, modelName, issued), FileName(modelName))
    {
      notice, request := NoNotice, None;
      if pressed {
        notice, request := RunVerification(engine, u, outcome);
      }
      view := ReportSection(brand, modelName, issued);
    }
  }
}
