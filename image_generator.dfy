/**
 * Image generation with a bounded retry: up to two calls to the hosted
 * text-to-image model, retrying only while the model reports it is still
 * loading, and falling back to a solid-colour placeholder. Each call's
 * outcome is an oracle indexed by the attempt number; the 15-second wait
 * between attempts is not modelled.
 */
module ImageGenerator {
  import opened TextUtil

  /** One 8-bit colour channel. */
  newtype Channel = x: int | 0 <= x < 256

  /** An RGB colour; each channel is a byte. */
  datatype Rgb = Rgb(red: Channel, green: Channel, blue: Channel)

  /** A picture: its PIL mode, its size and its rows of pixels. */
  datatype Image = Image(mode: string, width: nat, height: nat, pixels: seq<seq<Rgb>>)

  const PlaceholderWidth := 640
  const PlaceholderHeight := 480
  const PlaceholderColor := Rgb(73, 109, 137)
  const MaxRetries := 2

  /** Every pixel of a `width` x `height` grid of rows has colour `c`. */
  predicate SolidColor(img: Image, c: Rgb)
  {
    && |img.pixels| == img.height
    && forall y :: 0 <= y < img.height ==>
         |img.pixels[y]| == img.width && forall x :: 0 <= x < img.width ==> img.pixels[y][x] == c
  }

  /** `create_placeholder_image`: a 640x480 RGB image of one colour; the text is not used. */
  function CreatePlaceholderImage(textInput: string): (img: Image)
    ensures img.mode == "RGB" && img.width == PlaceholderWidth && img.height == PlaceholderHeight
    ensures SolidColor(img, PlaceholderColor)
  {
    Image("RGB", PlaceholderWidth, PlaceholderHeight,
          seq(PlaceholderHeight, _ => seq(PlaceholderWidth, _ => PlaceholderColor)))
  }

  /** The placeholder does not depend on the text it is made for. */
  lemma PlaceholderIgnoresText(a: string, b: string)
    ensures CreatePlaceholderImage(a) == CreatePlaceholderImage(b)
  {
  }

  /** Why a call to `text_to_image` raised. */
  datatype AttemptError = RepositoryNotFound(message: string) | OtherError(message: string)

  /** What one call to `text_to_image` did. */
  datatype AttemptOutcome = Generated(image: Image) | Failed(error: AttemptError)

  /** How the loop treats an error. */
  datatype ErrorKind = NotFound | ModelLoading | RateLimited | Unknown

  /**
   * The error classification: a missing repository first; then, on the
   * lower-cased message, "not ready" or "loading" before "rate limit" or
   * "limit exceeded"; everything else is unknown.
   */
  function Classify(e: AttemptError): (k: ErrorKind)
    ensures e.RepositoryNotFound? <==> k == NotFound
    ensures e.OtherError? ==>
      (k == ModelLoading <==>
         Contains(AsciiLower(e.message), "not ready") || Contains(AsciiLower(e.message), "loading"))
    ensures e.OtherError? ==>
      (k == RateLimited <==>
         !Contains(AsciiLower(e.message), "not ready") && !Contains(AsciiLower(e.message), "loading") &&
         (Contains(AsciiLower(e.message), "rate limit") || Contains(AsciiLower(e.message), "limit exceeded")))
  {
    match e
    case RepositoryNotFound(_) => NotFound
    case OtherError(message) =>
      var lowered := AsciiLower(message);
      if Contains(lowered, "not ready") || Contains(lowered, "loading") then ModelLoading
      else if Contains(lowered, "rate limit") || Contains(lowered, "limit exceeded") then RateLimited
      else Unknown
  }

  lemma {:induction false} LowerIdempotent(s: string)
    ensures AsciiLower(AsciiLower(s)) == AsciiLower(s)
  {
    var l := AsciiLower(s);
    forall i | 0 <= i < |s|
      ensures AsciiLower(l)[i] == l[i]
    {
      assert LowerChar(LowerChar(s[i])) == LowerChar(s[i]);
    }
  }

  /** The classification ignores the case of ASCII letters in the message. */
  lemma ClassifyIgnoresCase(message: string)
    ensures Classify(OtherError(AsciiLower(message))) == Classify(OtherError(message))
  {
    LowerIdempotent(message);
  }

  /** A message that reports both loading and a rate limit is retried: loading is checked first. */
  lemma LoadingCheckedBeforeRateLimit(message: string)
    requires Contains(AsciiLower(message), "loading")
    ensures Classify(OtherError(message)) == ModelLoading
  {
  }

  /**
   * Reference definition of the retry loop from attempt `attempt` on: the
   * image returned and how many calls were made in all.
   */
  function Run(prompt: string, textToImage: (string, nat) -> AttemptOutcome, attempt: nat): (Image, nat)
    decreases MaxRetries - attempt
  {
    if attempt >= MaxRetries then (CreatePlaceholderImage(prompt), attempt)
    else
      match textToImage(prompt, attempt)
      case Generated(img) => (img, attempt + 1)
      case Failed(e) =>
        if Classify(e) == ModelLoading then Run(prompt, textToImage, attempt + 1)
        else (CreatePlaceholderImage(prompt), attempt + 1)
  }

  /**
   * `generate_image_from_prompt`: at most `MAX_RETRIES` calls; the first
   * generated image is returned at once; a loading error moves on to the
   * next attempt; any other error stops; without an image the placeholder
   * is returned. The second result counts the calls made.
   */
  method GenerateImageFromPrompt(prompt: string, textToImage: (string, nat) -> AttemptOutcome)
    returns (image: Image, attempts: nat)
    ensures (image, attempts) == Run(prompt, textToImage, 0)
  {
    attempts := 0;
    for attempt := 0 to MaxRetries
      invariant attempts == attempt
      invariant Run(prompt, textToImage, 0) == Run(prompt, textToImage, attempt)
    {
      attempts := attempts + 1;
      var outcome := textToImage(prompt, attempt);
      if outcome.Generated? {
        return outcome.image, attempts;
      }
      var kind := Classify(outcome.error);
      if kind == NotFound {
        break;
      }
      if kind == ModelLoading {
        continue;
      }
      if kind == RateLimited {
        break;
      }
      break;
    }
    image := CreatePlaceholderImage(prompt);
  }

  /**
   * What the loop promises: between one and two calls; every call before the
   * last failed with a loading error; the last call's image is returned if it
   * produced one, and otherwise the placeholder is returned.
   */
  lemma {:induction false} RunOutcome(prompt: string, textToImage: (string, nat) -> AttemptOutcome, attempt: nat)
    requires attempt < MaxRetries
    ensures var (img, n) := Run(prompt, textToImage, attempt);
      && attempt < n <= MaxRetries
      && (forall k :: attempt <= k < n - 1 ==>
            textToImage(prompt, k).Failed? && Classify(textToImage(prompt, k).error) == ModelLoading)
      && (textToImage(prompt, n - 1).Generated? ==> img == textToImage(prompt, n - 1).image)
      && (textToImage(prompt, n - 1).Failed? ==>
            img == CreatePlaceholderImage(prompt) &&
            (n < MaxRetries ==> Classify(textToImage(prompt, n - 1).error) != ModelLoading))
    decreases MaxRetries - attempt
  {
    var outcome := textToImage(prompt, attempt);
    if outcome.Failed? && Classify(outcome.error) == ModelLoading && attempt + 1 < MaxRetries {
      RunOutcome(prompt, textToImage, attempt + 1);
    }
  }

  /** A first call that generates an image ends the loop with that image after one call. */
  lemma FirstSuccessReturned(prompt: string, textToImage: (string, nat) -> AttemptOutcome)
    requires textToImage(prompt, 0).Generated?
    ensures Run(prompt, textToImage, 0) == (textToImage(prompt, 0).image, 1)
  {
  }

  /** A rate limit, a missing model or an unknown error on the first call stops after that call. */
  lemma HardErrorStops(prompt: string, textToImage: (string, nat) -> AttemptOutcome)
    requires textToImage(prompt, 0).Failed?
    requires Classify(textToImage(prompt, 0).error) != ModelLoading
    ensures Run(prompt, textToImage, 0) == (CreatePlaceholderImage(prompt), 1)
  {
  }

  /** If no call generates an image, the result is the placeholder. */
  lemma NoImageGivesPlaceholder(prompt: string, textToImage: (string, nat) -> AttemptOutcome)
    requires forall k :: 0 <= k < MaxRetries ==> textToImage(prompt, k).Failed?
    ensures Run(prompt, textToImage, 0).0 == CreatePlaceholderImage(prompt)
    ensures SolidColor(Run(prompt, textToImage, 0).0, PlaceholderColor)
  {
    RunOutcome(prompt, textToImage, 0);
  }
}
