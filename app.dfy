/**
 * The state cells of App.tsx and the two handlers that drive them:
 * selecting an image resets to IDLE, generating goes through GENERATING and
 * ends in SUCCESS or ERROR depending on the adapter's outcome, which is passed
 * in as a value.
 */
module AppModel {
  import opened Wrappers
  import opened Types
  import AspectRatio
  import G = GeminiService

  const NoImageMessage: string := "The model did not return an image. Try a different prompt."
  const UnexpectedMessage: string := "An unexpected error occurred."

  /** `error.message || "An unexpected error occurred."`: never empty, the error's own message when it has one. */
  function ErrorText(e: G.JsError): (r: string)
    ensures r != ""
    ensures e.message != "" ==> r == e.message
    ensures e.message == "" ==> r == UnexpectedMessage
  {
    if e.message != "" then e.message else UnexpectedMessage
  }

  /** The arguments `handleGenerate` passes to `generateProductImage`. */
  datatype Call = Call(file: G.File, prompt: string, aspectRatio: string)

  class App {
    var imageFile: Option<G.File>
    var previewUrl: Option<string>
    var prompt: string
    var generatedImage: Option<string>
    var appState: AppState
    var errorMessage: Option<string>
    var aspectRatio: AspectRatioType
    var width: int
    var height: int

    /**
     * The states the handlers keep: UPLOADING is never entered; an image is
     * shown only in SUCCESS, and then it is non-empty and no error is shown;
     * an error message is shown only in ERROR, and then it is non-empty.
     */
    ghost predicate Valid()
      reads this
    {
      appState != Uploading &&
      (appState == Success ==> Truthy(generatedImage) && errorMessage == None) &&
      (appState != Success ==> generatedImage == None) &&
      (appState == Error ==> Truthy(errorMessage)) &&
      (appState != Error ==> errorMessage == None)
    }

    /** The initial values of the `useState` cells. */
    constructor ()
      ensures Valid()
      ensures imageFile == None && previewUrl == None && prompt == ""
      ensures generatedImage == None && appState == Idle && errorMessage == None
      ensures aspectRatio == Ratio1x1 && width == 1024 && height == 1024
    {
      imageFile := None;
      previewUrl := None;
      prompt := "";
      generatedImage := None;
      appState := Idle;
      errorMessage := None;
      aspectRatio := Ratio1x1;
      width := 1024;
      height := 1024;
    }

    /** `setPrompt`, handed to the prompt input. */
    method SetPrompt(p: string)
      modifies this
      ensures prompt == p
      ensures imageFile == old(imageFile) && previewUrl == old(previewUrl)
      ensures generatedImage == old(generatedImage) && appState == old(appState) && errorMessage == old(errorMessage)
      ensures aspectRatio == old(aspectRatio) && width == old(width) && height == old(height)
    {
      prompt := p;
    }

    /** `setAspectRatio`, `setWidth` and `setHeight`, handed to the dimension controls. */
    method SetDimensions(a: AspectRatioType, w: int, h: int)
      modifies this
      ensures aspectRatio == a && width == w && height == h
      ensures imageFile == old(imageFile) && previewUrl == old(previewUrl) && prompt == old(prompt)
      ensures generatedImage == old(generatedImage) && appState == old(appState) && errorMessage == old(errorMessage)
    {
      aspectRatio, width, height := a, w, h;
    }

    /** The ratio id `handleGenerate` sends, from the current selection and dimensions. */
    function EffectiveRatioId(): string
      reads this
    {
      AspectRatio.EffectiveAspectRatio(aspectRatio, width, height).Id()
    }

    /**
     * `handleImageSelect`: keep the file and its preview URL, clear the
     * result and the error, and go back to IDLE.
     */
    method HandleImageSelect(file: G.File, url: string)
      modifies this
      ensures Valid()
      ensures imageFile == Some(file) && previewUrl == Some(url)
      ensures generatedImage == None && errorMessage == None && appState == Idle
      ensures prompt == old(prompt) && aspectRatio == old(aspectRatio) && width == old(width) && height == old(height)
    {
      imageFile := Some(file);
      previewUrl := Some(url);
      generatedImage := None;
      errorMessage := None;
      appState := Idle;
    }

    /**
     * The synchronous part of `handleGenerate`: without a file or with an
     * empty prompt nothing happens; otherwise enter GENERATING with the result
     * and the error cleared, and issue the call with the effective ratio.
     */
    method StartGeneration() returns (call: Option<Call>)
      requires Valid()
      modifies this
      ensures Valid()
      ensures old(imageFile) == None || old(prompt) == "" ==> call == None && unchanged(this)
      ensures old(imageFile) != None && old(prompt) != "" ==>
                call == Some(Call(old(imageFile).value, old(prompt), old(EffectiveRatioId()))) &&
                appState == Generating && errorMessage == None && generatedImage == None
      ensures imageFile == old(imageFile) && previewUrl == old(previewUrl) && prompt == old(prompt)
      ensures aspectRatio == old(aspectRatio) && width == old(width) && height == old(height)
    {
      if imageFile == None || prompt == "" {
        return None;
      }
      appState := Generating;
      errorMessage := None;
      generatedImage := None;
      call := Some(Call(imageFile.value, prompt, EffectiveRatioId()));
    }

    /**
     * The part of `handleGenerate` after the await: a truthy image means
     * SUCCESS; a result without one is turned into the "did not return an
     * image" error; a thrown error shows its message or the fallback text.
     */
    method CompleteGeneration(outcome: G.Outcome)
      requires Valid() && appState == Generating
      modifies this
      ensures Valid()
      ensures outcome.Returned? && Truthy(outcome.output.image) ==>
                appState == Success && generatedImage == outcome.output.image && errorMessage == None
      ensures outcome.Returned? && !Truthy(outcome.output.image) ==>
                appState == Error && generatedImage == None && errorMessage == Some(NoImageMessage)
      ensures outcome.Threw? ==>
                appState == Error && generatedImage == None && errorMessage == Some(ErrorText(outcome.error))
      ensures imageFile == old(imageFile) && previewUrl == old(previewUrl) && prompt == old(prompt)
      ensures aspectRatio == old(aspectRatio) && width == old(width) && height == old(height)
    {
      var thrown: G.JsError;
      match outcome {
        case Returned(result) =>
          if Truthy(result.image) {
            generatedImage := result.image;
            appState := Success;
            return;
          }
          thrown := G.JsError(NoImageMessage);
        case Threw(e) =>
          thrown := e;
      }
      appState := Error;
      errorMessage := Some(ErrorText(thrown));
    }

    /**
     * `handleGenerate` as a whole, with the adapter's outcome given: either
     * nothing changes and no call is made, or the call is made and the state
     * ends in SUCCESS or ERROR.
     */
    method HandleGenerate(outcome: G.Outcome) returns (call: Option<Call>)
      requires Valid()
      modifies this
      ensures Valid()
      ensures old(imageFile) == None || old(prompt) == "" ==> call == None && unchanged(this)
      ensures old(imageFile) != None && old(prompt) != "" ==>
                call == Some(Call(old(imageFile).value, old(prompt), old(EffectiveRatioId()))) &&
                (appState == Success <==> outcome.Returned? && Truthy(outcome.output.image)) &&
                (appState == Success ==> generatedImage == outcome.output.image) &&
                (appState != Success ==>
                   appState == Error &&
                   errorMessage == Some(if outcome.Threw? then ErrorText(outcome.error) else NoImageMessage))
      ensures imageFile == old(imageFile) && previewUrl == old(previewUrl) && prompt == old(prompt)
      ensures aspectRatio == old(aspectRatio) && width == old(width) && height == old(height)
    {
      call := StartGeneration();
      if call.Some? {
        CompleteGeneration(outcome);
      }
    }
  }
}
