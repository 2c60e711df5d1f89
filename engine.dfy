/**
 * The system setup of app.py: which generation model becomes the engine.
 * The model listing of the remote service is passed in; a listing that
 * raised is `None`.
 */
module Engine {
  import opened Wrappers
  import opened Text

  /** An entry of the remote model listing: its name and its supported generation methods. */
  datatype ModelInfo = ModelInfo(name: string, methods: seq<string>)

  const GenerateContent: string := "generateContent"

  predicate CanGenerate(m: ModelInfo) {
    GenerateContent in m.methods
  }

  /** The names of the listed models that support `generateContent`, in listing order. */
  function Available(models: seq<ModelInfo>): (names: seq<string>)
    ensures |names| <= |models|
    ensures forall n :: n in names <==> exists m :: m in models && CanGenerate(m) && m.name == n
  {
    if models == [] then []
    else if CanGenerate(models[0]) then [models[0].name] + Available(models[1..])
    else Available(models[1..])
  }

  /** Filtering a concatenated listing filters each part: the listing order is kept. */
  lemma {:induction false} AvailableAppend(a: seq<ModelInfo>, b: seq<ModelInfo>)
    ensures Available(a + b) == Available(a) + Available(b)
  {
    if a == [] {
      assert a + b == b;
    } else {
      assert (a + b)[0] == a[0];
      assert (a + b)[1..] == a[1..] + b;
      AvailableAppend(a[1..], b);
    }
  }

  /** `'flash' in name.lower()`. */
  function IsFlash(name: string): (b: bool)
    ensures b ==> |name| >= 5
  {
    Contains(AsciiLowerAll(name), "flash")
  }

  /** `i` is the position of the first flash model of `names`. */
  predicate IsFirstFlash(names: seq<string>, i: int) {
    0 <= i < |names| && IsFlash(names[i]) && forall j :: 0 <= j < i ==> !IsFlash(names[j])
  }

  /** The position of the first flash model, if there is one. */
  function FirstFlash(names: seq<string>): (r: Option<nat>)
    ensures r.Some? ==> IsFirstFlash(names, r.value)
    ensures r.None? ==> forall j :: 0 <= j < |names| ==> !IsFlash(names[j])
  {
    if names == [] then None
    else if IsFlash(names[0]) then Some(0)
    else match FirstFlash(names[1..])
      case None => None
      case Some(i) => Some(i + 1)
  }

  /**
   * `next((m for m in available if 'flash' in m.lower()), available[0])`:
   * the first flash model, otherwise the first model; `None` where evaluating
   * `available[0]` raises on an empty list.
   */
  function SelectModel(available: seq<string>): (r: Option<string>)
    ensures r.None? <==> available == []
    ensures r.Some? ==> r.value in available
    ensures forall i :: IsFirstFlash(available, i) ==> r == Some(available[i])
    ensures available != [] && (forall j :: 0 <= j < |available| ==> !IsFlash(available[j])) ==>
            r == Some(available[0])
  {
    if available == [] then None
    else match FirstFlash(available)
      case Some(i) => Some(available[i])
      case None => Some(available[0])
  }

  /** How the setup ended: an engine, no API key, or an exception during initialisation. */
  datatype Setup = Ready(model: string) | MissingKey | InitFailed

  /**
   * The setup block: without the `GEMINI_API_KEY` secret there is no engine;
   * a listing that raised, or one with no model supporting `generateContent`,
   * is caught as an initialisation failure.
   */
  function InitEngine(hasKey: bool, listing: Option<seq<ModelInfo>>): (s: Setup)
    ensures s == MissingKey <==> !hasKey
    ensures s.Ready? ==> listing.Some? && s.model in Available(listing.value)
  {
    if !hasKey then MissingKey
    else match listing
      case None => InitFailed
      case Some(models) =>
        match SelectModel(Available(models))
        case Some(name) => Ready(name)
        case None => InitFailed
  }

  /** The `engine` variable after setup: `None` unless the setup succeeded. */
  function EngineOf(s: Setup): (e: Option<string>)
    ensures e.Some? <==> s.Ready?
    ensures e.Some? ==> e.value == s.model
  {
    if s.Ready? then Some(s.model) else None
  }

  /**
   * Setup yields an engine exactly when the key is there, the listing
   * succeeded and some listed model supports `generateContent`; the engine is
   * then the name of such a model, and a flash one whenever one exists.
   */
  lemma InitEngineOutcome(hasKey: bool, listing: Option<seq<ModelInfo>>)
    ensures var e := EngineOf(InitEngine(hasKey, listing));
      (e.Some? <==> hasKey && listing.Some? && exists m :: m in listing.value && CanGenerate(m)) &&
      (e.Some? ==> exists m :: m in listing.value && CanGenerate(m) && m.name == e.value) &&
      (e.Some? && (exists m :: m in listing.value && CanGenerate(m) && IsFlash(m.name)) ==>
         IsFlash(e.value))
  {
    if hasKey && listing.Some? {
      var names := Available(listing.value);
      if exists m :: m in listing.value && CanGenerate(m) {
        var m :| m in listing.value && CanGenerate(m);
        assert m.name in names;
      }
      if exists m :: m in listing.value && CanGenerate(m) && IsFlash(m.name) {
        var m :| m in listing.value && CanGenerate(m) && IsFlash(m.name);
        assert m.name in names;
        var k :| 0 <= k < |names| && names[k] == m.name;
        assert FirstFlash(names).Some?;
      }
    }
  }

  /** Without the key no listing is consulted and no engine exists. */
  lemma NoKeyNoEngine(listing: Option<seq<ModelInfo>>)
    ensures InitEngine(false, listing) == MissingKey && EngineOf(InitEngine(false, listing)) == None
  {
  }
}
