/** The Gemini image generator of the nano-banana-pro skill: the aspect
    instruction that starts the prompt, the sentence about reference images
    that ends it, the contents list (reference images in order, then the
    prompt), the choice of model and configuration, and the scan of the
    response for the first image. The model call itself is a parameter, the
    file system is the set of paths that exist and saving the image is
    returning its bytes. */
module NanoBananaImage {
  import opened Wrappers
  import opened Text

  newtype byte = x: int | 0 <= x < 256

  /** The aspect ratio handed to the pro model, `1:1` for anything unknown. */
  function AspectRatio(aspect: string): string
  {
    if aspect == "landscape" then "16:9"
    else if aspect == "portrait" then "9:16"
    else "1:1"
  }

  /** `get_aspect_instruction`: the sentence for the three known aspects,
      the square one for anything else. */
  function AspectInstruction(aspect: string): string
  {
    if aspect == "landscape" then "Generate a landscape/wide image (16:9 aspect ratio)."
    else if aspect == "portrait" then "Generate a portrait/tall image (9:16 aspect ratio)."
    else "Generate a square image (1:1 aspect ratio)."
  }

  /** Any key other than landscape and portrait gets the square sentence. */
  lemma AspectDefault(aspect: string)
    requires aspect != "landscape" && aspect != "portrait"
    ensures AspectInstruction(aspect) == AspectInstruction("square")
  {
  }

  /** The prompt and the configuration never disagree: the instruction
      names the same ratio the pro model is configured with, for every
      aspect string. */
  lemma AspectAgrees(aspect: string)
    ensures Contains(AspectInstruction(aspect), "(" + AspectRatio(aspect) + " aspect ratio)")
  {
    var s, pre := AspectInstruction(aspect), SentencePrefix(aspect);
    var p := "(" + AspectRatio(aspect) + " aspect ratio)";
    SentenceSplits(aspect);
    ContainsMiddle(pre, p, ".");
  }

  /** The words before the ratio in each sentence. */
  function SentencePrefix(aspect: string): string
  {
    if aspect == "landscape" then "Generate a landscape/wide image "
    else if aspect == "portrait" then "Generate a portrait/tall image "
    else "Generate a square image "
  }

  /** Each sentence is its words, then its ratio in parentheses, then a full stop. */
  lemma SentenceSplits(aspect: string)
    ensures AspectInstruction(aspect) == SentencePrefix(aspect) + ("(" + AspectRatio(aspect) + " aspect ratio)") + "."
  {
    if aspect == "landscape" {
      LandscapeSentenceSplits();
    } else if aspect == "portrait" {
      PortraitSentenceSplits();
    } else {
      SquareSentenceSplits();
    }
  }

  lemma LandscapeSentenceSplits()
    ensures "Generate a landscape/wide image (16:9 aspect ratio)."
         == "Generate a landscape/wide image " + ("(" + "16:9" + " aspect ratio)") + "."
  {
  }

  lemma PortraitSentenceSplits()
    ensures "Generate a portrait/tall image (9:16 aspect ratio)."
         == "Generate a portrait/tall image " + ("(" + "9:16" + " aspect ratio)") + "."
  {
  }

  lemma SquareSentenceSplits()
    ensures "Generate a square image (1:1 aspect ratio)."
         == "Generate a square image " + ("(" + "1:1" + " aspect ratio)") + "."
  {
  }

  /** A string contains every piece it is made of. */
  lemma ContainsMiddle(a: string, p: string, c: string)
    ensures Contains(a + p + c, p)
  {
    MiddleSlice(a, p, c);
    assert OccursAt(a + p + c, p, |a|);
    ContainsIff(a + p + c, p);
  }

  const SingleReference := "Use the provided image as a reference for style, composition, or content."

  const UseProvided := "Use the provided "
  const ImagesAsReferences := " images as references for style, composition, or content."

  function ManyReferences(k: nat): string
  {
    UseProvided + NatToString(k) + ImagesAsReferences
  }

  /** What the prompt gains from `k` reference images. */
  function ReferenceSuffix(k: nat): string
  {
    if k == 0 then "" else if k == 1 then " " + SingleReference else " " + ManyReferences(k)
  }

  /** For two or more references the count can be read back from the
      prompt, right after "Use the provided ". */
  lemma ReferenceCountReadable(k: nat)
    requires k >= 2
    ensures var n := |NatToString(k)|;
            |ReferenceSuffix(k)| >= 18 + n && AllDigits(ReferenceSuffix(k)[18..18 + n])
            && ParseNat(ReferenceSuffix(k)[18..18 + n]) == k
  {
    var digits := NatToString(k);
    var n := |digits|;
    var a := " " + UseProvided;
    assert |a| == 18;
    Associative(" ", UseProvided + digits, ImagesAsReferences);
    Associative(" ", UseProvided, digits);
    assert ReferenceSuffix(k) == a + digits + ImagesAsReferences;
    MiddleSlice(a, digits, ImagesAsReferences);
    ParseNatToString(k);
  }

  /** The final prompt: the aspect instruction, a space, the user's prompt,
      then the reference sentence. */
  function FullPrompt(aspect: string, prompt: string, k: nat): string
  {
    AspectInstruction(aspect) + " " + prompt + ReferenceSuffix(k)
  }

  const ModelIds: map<string, string> := map[
    "flash" := "gemini-2.5-flash-image",
    "pro" := "gemini-3-pro-image-preview"
  ]

  /** An element of the contents list: an opened reference image, or text. */
  datatype Content = ReferenceImage(path: string) | PromptText(text: string)

  datatype ImageConfig = ImageConfig(responseModalities: seq<string>, aspectRatio: string, imageSize: string)

  /** What is sent to the model. */
  datatype Request = Request(modelId: string, contents: seq<Content>, config: Option<ImageConfig>)

  /** The ways `generate_image` exits with status 1 (an unknown model is
      the `KeyError` of the `MODEL_IDS` lookup). */
  datatype Failure = MissingApiKey | ReferenceNotFound(path: string) | UnknownModel(model: string) | NoImageData

  /** Only the pro model gets a configuration. */
  function ConfigFor(model: string, aspect: string, size: string): Option<ImageConfig>
  {
    if model == "pro" then Some(ImageConfig(["TEXT", "IMAGE"], AspectRatio(aspect), size)) else None
  }

  /** The first reference from `from` on that does not exist. */
  function FirstMissing(refs: seq<string>, existing: set<string>, from: nat): (r: Option<nat>)
    ensures r.Some? ==> from <= r.value < |refs| && refs[r.value] !in existing
                        && forall j :: from <= j < r.value ==> refs[j] in existing
    ensures r.None? ==> forall j :: from <= j < |refs| ==> refs[j] in existing
    decreases |refs| - from
  {
    if from >= |refs| then None
    else if refs[from] !in existing then Some(from)
    else FirstMissing(refs, existing, from + 1)
  }

  /** The request `generate_image` sends, or why it stops before sending. */
  function Prepare(apiKey: Option<string>, prompt: string, aspect: string, references: Option<seq<string>>,
                   model: string, size: string, existing: set<string>): Result<Request, Failure>
  {
    if apiKey.None? || apiKey.value == "" then Err(MissingApiKey)
    else
      var refs := references.GetOr([]);
      match FirstMissing(refs, existing, 0)
      case Some(j) => Err(ReferenceNotFound(refs[j]))
      case None =>
        if model !in ModelIds then Err(UnknownModel(model))
        else
          var images := seq(|refs|, i requires 0 <= i < |refs| => ReferenceImage(refs[i]));
          Ok(Request(ModelIds[model], images + [PromptText(FullPrompt(aspect, prompt, |refs|))], ConfigFor(model, aspect, size)))
  }

  lemma PromptSteps(aspect: string, prompt: string, k: nat)
    ensures var head := AspectInstruction(aspect) + " " + prompt;
            && (k == 0 ==> head == FullPrompt(aspect, prompt, k))
            && (k == 1 ==> head + " " + SingleReference == FullPrompt(aspect, prompt, k))
            && (k >= 2 ==> head + " " + ManyReferences(k) == FullPrompt(aspect, prompt, k))
  {
    var head := AspectInstruction(aspect) + " " + prompt;
    assert FullPrompt(aspect, prompt, k) == head + ReferenceSuffix(k);
    if k == 0 {
      assert head + [] == head;
    } else if k == 1 {
      Associative(head, " ", SingleReference);
    } else {
      Associative(head, " ", ManyReferences(k));
    }
  }

  lemma Associative(a: string, b: string, c: string)
    ensures a + (b + c) == a + b + c
  {
  }

  lemma MiddleSlice(a: string, b: string, c: string)
    ensures |a + b + c| == |a| + |b| + |c| && (a + b + c)[|a|..|a| + |b|] == b
  {
  }

  /** The reference loop of `generate_image`: every path must exist, and
      each is opened in turn. */
  method OpenReferences(refs: seq<string>, existing: set<string>) returns (r: Result<seq<Content>, Failure>)
    ensures FirstMissing(refs, existing, 0).Some? ==> r == Err(ReferenceNotFound(refs[FirstMissing(refs, existing, 0).value]))
    ensures FirstMissing(refs, existing, 0).None? ==> r == Ok(seq(|refs|, j requires 0 <= j < |refs| => ReferenceImage(refs[j])))
  {
    var contents: seq<Content> := [];
    var i := 0;
    while i < |refs|
      invariant 0 <= i <= |refs|
      invariant forall j :: 0 <= j < i ==> refs[j] in existing
      invariant contents == seq(i, j requires 0 <= j < i => ReferenceImage(refs[j]))
    {
      if refs[i] !in existing {
        assert FirstMissing(refs, existing, 0) == Some(i);
        return Err(ReferenceNotFound(refs[i]));
      }
      contents := contents + [ReferenceImage(refs[i])];
      i := i + 1;
    }
    return Ok(contents);
  }

  /** The request-building part of `generate_image`. */
  method BuildRequest(apiKey: Option<string>, prompt: string, aspect: string, references: Option<seq<string>>,
                      model: string, size: string, existing: set<string>) returns (r: Result<Request, Failure>)
    ensures r == Prepare(apiKey, prompt, aspect, references, model, size, existing)
  {
    if apiKey.None? || apiKey.value == "" {
      return Err(MissingApiKey);
    }
    var fullPrompt := AspectInstruction(aspect) + " " + prompt;
    var contents: seq<Content> := [];
    if references.Some? && |references.value| > 0 {
      var refs := references.value;
      var images := OpenReferences(refs, existing);
      if images.Err? {
        return Err(images.error);
      }
      contents := images.value;
      if |refs| == 1 {
        fullPrompt := fullPrompt + " " + SingleReference;
      } else {
        fullPrompt := fullPrompt + " " + ManyReferences(|refs|);
      }
      PromptSteps(aspect, prompt, |refs|);
    } else {
      PromptSteps(aspect, prompt, 0);
    }
    ghost var refs0 := references.GetOr([]);
    assert FirstMissing(refs0, existing, 0).None?;
    assert contents == seq(|refs0|, j requires 0 <= j < |refs0| => ReferenceImage(refs0[j]));
    contents := contents + [PromptText(fullPrompt)];
    if model !in ModelIds {
      return Err(UnknownModel(model));
    }
    var modelId := ModelIds[model];
    var config: Option<ImageConfig> := None;
    if model == "pro" {
      config := Some(ImageConfig(["TEXT", "IMAGE"], AspectRatio(aspect), size));
    }
    return Ok(Request(modelId, contents, config));
  }

  /** A request is built exactly when there is an API key, every reference
      exists and the model is known; the failures are checked in that order. */
  lemma PrepareOutcome(apiKey: Option<string>, prompt: string, aspect: string, references: Option<seq<string>>,
                       model: string, size: string, existing: set<string>)
    ensures var r := Prepare(apiKey, prompt, aspect, references, model, size, existing);
            var refs := references.GetOr([]);
            && (r.Ok? <==> apiKey.Some? && apiKey.value != ""
                           && (forall j :: 0 <= j < |refs| ==> refs[j] in existing)
                           && model in {"flash", "pro"})
            && ((apiKey.None? || apiKey.value == "") ==> r == Err(MissingApiKey))
            && (apiKey.Some? && apiKey.value != "" ==> r != Err(MissingApiKey))
            && (apiKey.Some? && apiKey.value != "" && FirstMissing(refs, existing, 0).Some?
                ==> r == Err(ReferenceNotFound(refs[FirstMissing(refs, existing, 0).value])))
            && (apiKey.Some? && apiKey.value != "" && FirstMissing(refs, existing, 0).None? && model !in {"flash", "pro"}
                ==> r == Err(UnknownModel(model)))
            && (r.Err? && r.error.ReferenceNotFound? ==> r.error.path in refs && r.error.path !in existing)
            && (r.Err? && r.error.UnknownModel? ==> forall j :: 0 <= j < |refs| ==> refs[j] in existing)
  {
  }

  /** The contents are the reference images in argument order followed by
      the prompt, and the prompt begins with the aspect instruction and the
      user's words. */
  lemma PrepareContents(apiKey: Option<string>, prompt: string, aspect: string, references: Option<seq<string>>,
                        model: string, size: string, existing: set<string>)
    requires Prepare(apiKey, prompt, aspect, references, model, size, existing).Ok?
    ensures var req := Prepare(apiKey, prompt, aspect, references, model, size, existing).value;
            var refs := references.GetOr([]);
            && |req.contents| == |refs| + 1
            && (forall i :: 0 <= i < |refs| ==> req.contents[i] == ReferenceImage(refs[i]))
            && req.contents[|refs|].PromptText?
            && IsPrefix(AspectInstruction(aspect) + " " + prompt, req.contents[|refs|].text)
            && req.contents[|refs|].text == AspectInstruction(aspect) + " " + prompt + ReferenceSuffix(|refs|)
  {
    var req := Prepare(apiKey, prompt, aspect, references, model, size, existing).value;
    var refs := references.GetOr([]);
    var head := AspectInstruction(aspect) + " " + prompt;
    assert req.contents[|refs|].text == head + ReferenceSuffix(|refs|);
    assert (head + ReferenceSuffix(|refs|))[..|head|] == head;
  }

  /** The pro model is configured with the aspect's ratio and the requested
      size; the flash model gets no configuration. */
  lemma PrepareModel(apiKey: Option<string>, prompt: string, aspect: string, references: Option<seq<string>>,
                     model: string, size: string, existing: set<string>)
    requires Prepare(apiKey, prompt, aspect, references, model, size, existing).Ok?
    ensures var req := Prepare(apiKey, prompt, aspect, references, model, size, existing).value;
            && (model == "pro" ==> req.modelId == "gemini-3-pro-image-preview"
                                   && req.config == Some(ImageConfig(["TEXT", "IMAGE"], AspectRatio(aspect), size)))
            && (model == "flash" ==> req.modelId == "gemini-2.5-flash-image" && req.config == None)
  {
  }

  /** No references and an empty list of references are the same request. */
  lemma EmptyReferencesAsNone(apiKey: Option<string>, prompt: string, aspect: string,
                              model: string, size: string, existing: set<string>)
    ensures Prepare(apiKey, prompt, aspect, Some([]), model, size, existing)
         == Prepare(apiKey, prompt, aspect, None, model, size, existing)
  {
  }

  // ---------------------------------------------------------------------
  // The response

  /** A part of the model's response. */
  datatype Part = Part(text: Option<string>, inlineData: Option<seq<byte>>)

  /** A part is saved when it carries image data and no text. */
  predicate IsImagePart(p: Part)
  {
    p.text.None? && p.inlineData.Some?
  }

  /** The index of the first image part from `from` on. */
  function FirstImagePart(parts: seq<Part>, from: nat): (r: Option<nat>)
    ensures r.Some? ==> from <= r.value < |parts| && IsImagePart(parts[r.value])
                        && forall j :: from <= j < r.value ==> !IsImagePart(parts[j])
    ensures r.None? ==> forall j :: from <= j < |parts| ==> !IsImagePart(parts[j])
    decreases |parts| - from
  {
    if from >= |parts| then None
    else if IsImagePart(parts[from]) then Some(from)
    else FirstImagePart(parts, from + 1)
  }

  /** The scan of `response.parts`: text parts are only shown, the first
      part with image data is returned, and no image is `NoImageData`. */
  method ScanResponse(parts: seq<Part>) returns (r: Result<seq<byte>, Failure>)
    ensures FirstImagePart(parts, 0).None? ==> r == Err(NoImageData)
    ensures FirstImagePart(parts, 0).Some? ==> r == Ok(parts[FirstImagePart(parts, 0).value].inlineData.value)
  {
    var i := 0;
    while i < |parts|
      invariant 0 <= i <= |parts|
      invariant forall j :: 0 <= j < i ==> !IsImagePart(parts[j])
    {
      var part := parts[i];
      if part.text.Some? {
        // shown to the user
      } else if part.inlineData.Some? {
        assert FirstImagePart(parts, 0) == Some(i);
        return Ok(part.inlineData.value);
      }
      i := i + 1;
    }
    return Err(NoImageData);
  }

  /** A part with text is never saved, even when it also carries image data. */
  lemma TextPartNeverSaved(parts: seq<Part>, j: nat)
    requires j < |parts| && parts[j].text.Some?
    ensures FirstImagePart(parts, 0) != Some(j)
  {
  }

  /** A response with any image part yields an image. */
  lemma AnyImageIsFound(parts: seq<Part>, j: nat)
    requires j < |parts| && IsImagePart(parts[j])
    ensures FirstImagePart(parts, 0).Some? && FirstImagePart(parts, 0).value <= j
  {
  }

  /** The saved result: where the image goes and its bytes. */
  datatype Saved = Saved(path: string, data: seq<byte>)

  /** `generate_image` with the model call `respond`: either the image it
      saves or the failure it exits with. */
  method GenerateImage(apiKey: Option<string>, prompt: string, outputPath: string, aspect: string,
                       references: Option<seq<string>>, model: string, size: string,
                       existing: set<string>, respond: Request -> seq<Part>) returns (r: Result<Saved, Failure>)
    ensures var prep := Prepare(apiKey, prompt, aspect, references, model, size, existing);
            && (prep.Err? ==> r == Err(prep.error))
            && (prep.Ok? ==>
                  var parts := respond(prep.value);
                  var m := FirstImagePart(parts, 0);
                  r == if m.Some? then Ok(Saved(outputPath, parts[m.value].inlineData.value)) else Err(NoImageData))
  {
    var req := BuildRequest(apiKey, prompt, aspect, references, model, size, existing);
    if req.Err? {
      return Err(req.error);
    }
    var parts := respond(req.value);
    var image := ScanResponse(parts);
    if image.Err? {
      return Err(image.error);
    }
    return Ok(Saved(outputPath, image.value));
  }
}
